/** After any run of mounts and unmounts, a walk lists each prefix's union, longest prefix first. */
module MountOrder {
  import opened Bytes
  import opened Normalize
  import opened Traces
  import opened Namespace

  // ---------------------------------------------------------------- the union at one path

  /** What is mounted at q, first searched first: the reference a run is measured against. A Replace
      clears every path that shares its bucket. */
  function UnionAt(run: Trace<Op>, q: seq<byte>, size: nat): seq<nat>
    requires size > 0
  {
    match run
    case Start => []
    case Then(before, op) =>
      var u := UnionAt(before, q, size);
      if op.Mount? && op.flag.Replace? && HashOf(op.path, size) == HashOf(q, size)
      then if op.path == q then [op.id] else []
      else if op.path != q then u
      else if op.Unmount? then if |u| == 0 then u else u[1..]
      else if op.flag.Before? then [op.id] + u
      else u + [op.id]
  }

  function AtPath(b: Bucket, q: seq<byte>): seq<Entry> {
    if |b| == 0 then [] else (if b[0].path == q then [b[0]] else []) + AtPath(b[1..], q)
  }

  function Ids(es: seq<Entry>): (r: seq<nat>)
    ensures |r| == |es|
  {
    if |es| == 0 then [] else [es[0].id] + Ids(es[1..])
  }

  lemma {:induction false} IdsJoin(s: seq<Entry>, t: seq<Entry>)
    ensures Ids(s + t) == Ids(s) + Ids(t)
    decreases |s|
  {
    if |s| == 0 {
      assert s + t == t;
    } else {
      IdsJoin(s[1..], t);
      assert (s + t)[1..] == s[1..] + t;
      assert [s[0].id] + (Ids(s[1..]) + Ids(t)) == [s[0].id] + Ids(s[1..]) + Ids(t);
    }
  }

  lemma {:induction false} AtPathJoin(s: Bucket, t: Bucket, q: seq<byte>)
    ensures AtPath(s + t, q) == AtPath(s, q) + AtPath(t, q)
    decreases |s|
  {
    if |s| == 0 {
      assert s + t == t;
    } else {
      AtPathJoin(s[1..], t, q);
      assert (s + t)[1..] == s[1..] + t;
      var a, b, c: seq<Entry> := if s[0].path == q then [s[0]] else [], AtPath(s[1..], q), AtPath(t, q);
      assert a + (b + c) == a + b + c;
    }
  }

  lemma {:induction false} AtPathMounted(b: Bucket, q: seq<byte>)
    ensures AtPath(b, q) != [] <==> exists i :: 0 <= i < |b| && b[i].path == q
    decreases |b|
  {
    if |b| > 0 && b[0].path != q {
      AtPathMounted(b[1..], q);
      assert forall i :: 0 <= i < |b| - 1 ==> b[1..][i] == b[i + 1];
    }
  }

  lemma AtPathOne(e: Entry, q: seq<byte>)
    ensures AtPath([e], q) == if e.path == q then [e] else []
  {
  }

  lemma {:induction false} AtPathRemove(b: Bucket, path: seq<byte>, q: seq<byte>)
    ensures var u := AtPath(b, q); AtPath(Remove(b, path), q) == if path != q || |u| == 0 then u else u[1..]
    decreases |b|
  {
    if |b| > 0 && b[0].path != path {
      AtPathRemove(b[1..], path, q);
      assert ([b[0]] + Remove(b[1..], path))[1..] == Remove(b[1..], path);
      if path == q && |AtPath(b, q)| > 0 {
        assert AtPath(b, q) == AtPath(b[1..], q);
      }
    }
  }

  lemma AtPathInsert(b: Bucket, path: seq<byte>, id: nat, flag: Flag, q: seq<byte>)
    ensures var u, i := AtPath(b, q), AtPath(Insert(b, path, id, flag), q);
            match flag
            case Replace => Ids(i) == if path == q then [id] else []
            case Before => Ids(i) == if path == q then [id] + Ids(u) else Ids(u)
            case After => Ids(i) == if path == q then Ids(u) + [id] else Ids(u)
  {
    match flag
    case Replace => AtPathOne(Entry(path, id, 0), q);
    case Before =>
      var e := Entry(path, id, 0);
      AtPathJoin([e], b, q);
      AtPathOne(e, q);
      IdsJoin(AtPath([e], q), AtPath(b, q));
    case After =>
      var e := Entry(path, id, NextPriority(b));
      AtPathJoin(b, [e], q);
      AtPathOne(e, q);
      IdsJoin(AtPath(b, q), AtPath([e], q));
  }

  /** A bucket holds, for each of its paths, that path's union in search order. */
  lemma {:induction false} BucketHoldsUnion(run: Trace<Op>, q: seq<byte>, size: nat)
    requires size > 0
    ensures Ids(AtPath(Buckets(run, size)[HashOf(q, size)], q)) == UnionAt(run, q, size)
    decreases run
  {
    match run
    case Start =>
    case Then(before, op) =>
      BucketHoldsUnion(before, q, size);
      var b := Buckets(before, size)[HashOf(op.path, size)];
      match op
      case Mount(path, id, flag) => AtPathInsert(b, path, id, flag, q);
      case Unmount(path) => AtPathRemove(b, path, q);
  }

  // ---------------------------------------------------------------- what every run keeps

  predicate Rising(b: Bucket) { forall i, j :: 0 <= i < j < |b| ==> b[i].priority <= b[j].priority }

  predicate Placed(b: Bucket, h: nat, size: nat)
    requires size > 0
  {
    forall i :: 0 <= i < |b| ==> HashOf(b[i].path, size) == h
  }

  predicate BucketOk(b: Bucket, h: nat, size: nat)
    requires size > 0
  {
    Rising(b) && Placed(b, h, size)
  }

  lemma {:induction false} RemoveKeeps(b: Bucket, path: seq<byte>, h: nat, size: nat)
    requires size > 0 && BucketOk(b, h, size)
    ensures BucketOk(Remove(b, path), h, size) && forall e :: e in Remove(b, path) ==> e in b
    decreases |b|
  {
    if |b| > 0 && b[0].path != path {
      RemoveKeeps(b[1..], path, h, size);
      var r := Remove(b[1..], path);
      forall j | 0 <= j < |r| ensures b[0].priority <= r[j].priority {
        assert r[j] in r && r[j] in b[1..];
      }
    }
  }

  /** Priorities rise along every bucket and every entry is in its own path's bucket. */
  lemma {:induction false} RunKeeps(run: Trace<Op>, size: nat, h: nat)
    requires h < size
    ensures BucketOk(Buckets(run, size)[h], h, size)
    decreases run
  {
    match run
    case Start =>
    case Then(before, op) =>
      RunKeeps(before, size, h);
      if op.Unmount? {
        RemoveKeeps(Buckets(before, size)[h], op.path, h, size);
      }
  }

  // ---------------------------------------------------------------- the sorted answer

  /** The union at the prefix of exactly n characters. */
  function Piece(bs: seq<Bucket>, path: seq<byte>, n: nat): seq<Entry>
    requires |bs| > 0 && n <= |path|
  {
    var q := path[..n];
    if HasPrefix(path, q) then AtPath(bs[HashOf(q, |bs|)], q) else []
  }

  /** The unions of all prefixes of path with at most n characters, longest first. */
  function Answer(bs: seq<Bucket>, path: seq<byte>, n: nat): seq<Entry>
    requires |bs| > 0 && n <= |path|
  {
    Piece(bs, path, n) + (if n == 0 then [] else Answer(bs, path, n - 1))
  }

  lemma {:induction false} AtPathIn(b: Bucket, q: seq<byte>)
    ensures forall e :: e in AtPath(b, q) ==> e in b && e.path == q
    ensures Rising(b) ==> Rising(AtPath(b, q))
    decreases |b|
  {
    if |b| > 0 {
      AtPathIn(b[1..], q);
      var r := AtPath(b[1..], q);
      forall j | 0 <= j < |r| && Rising(b) ensures b[0].priority <= r[j].priority {
        assert r[j] in r && r[j] in b[1..];
      }
    }
  }

  predicate AllOfLength(s: seq<Entry>, n: nat) { forall i :: 0 <= i < |s| ==> |s[i].path| == n }

  predicate AllShorter(s: seq<Entry>, n: nat) { forall i :: 0 <= i < |s| ==> |s[i].path| < n }

  lemma OrderedJoin(head: seq<Entry>, tail: seq<Entry>, n: nat)
    requires AllOfLength(head, n) && Rising(head) && AllShorter(tail, n) && Ordered(tail)
    ensures Ordered(head + tail) && AllShorter(head + tail, n + 1)
  {
  }

  lemma PieceOk(bs: seq<Bucket>, path: seq<byte>, n: nat)
    requires |bs| > 0 && n <= |path| && forall h :: 0 <= h < |bs| ==> Rising(bs[h])
    ensures AllOfLength(Piece(bs, path, n), n) && Rising(Piece(bs, path, n))
  {
    var q := path[..n];
    AtPathIn(bs[HashOf(q, |bs|)], q);
    var s := Piece(bs, path, n);
    forall i | 0 <= i < |s| ensures |s[i].path| == n {
      assert s[i] in s;
    }
  }

  lemma {:induction false} AnswerOrdered(bs: seq<Bucket>, path: seq<byte>, n: nat)
    requires |bs| > 0 && n <= |path| && forall h :: 0 <= h < |bs| ==> Rising(bs[h])
    ensures Ordered(Answer(bs, path, n)) && AllShorter(Answer(bs, path, n), n + 1)
    decreases n
  {
    PieceOk(bs, path, n);
    if n > 0 {
      AnswerOrdered(bs, path, n - 1);
    }
    OrderedJoin(Piece(bs, path, n), if n == 0 then [] else Answer(bs, path, n - 1), n);
  }

  lemma {:induction false} OtherLength(s: seq<Entry>, n: nat, k: Rank)
    requires AllOfLength(s, n) && k.length != n
    ensures OfRank(s, k) == []
    decreases |s|
  {
    if |s| > 0 {
      OtherLength(s[1..], n, k);
    }
  }

  /** In front of shorter ones, entries of length n are all there is of that length. */
  lemma RankOfJoin(all: seq<Entry>, head: seq<Entry>, tail: seq<Entry>, n: nat, k: Rank, below: seq<Entry>)
    requires all == head + tail && AllOfLength(head, n) && OfRank(tail, k) == below && (k.length >= n ==> below == [])
    ensures OfRank(all, k) == if k.length == n then OfRank(head, k) else below
  {
    OfRankSplit(head, tail, k);
    if k.length != n {
      OtherLength(head, n, k);
    }
  }

  lemma {:induction false} AnswerOfRank(bs: seq<Bucket>, path: seq<byte>, n: nat, k: Rank)
    requires |bs| > 0 && n <= |path| && forall h :: 0 <= h < |bs| ==> Rising(bs[h])
    ensures OfRank(Answer(bs, path, n), k) == if k.length <= n then OfRank(Piece(bs, path, k.length), k) else []
    decreases n
  {
    var all, head, tail := Answer(bs, path, n), Piece(bs, path, n), if n == 0 then [] else Answer(bs, path, n - 1);
    assert all == head + tail;
    PieceOk(bs, path, n);
    if n > 0 {
      AnswerOfRank(bs, path, n - 1, k);
    }
    RankOfJoin(all, head, tail, n, k, if k.length < n then OfRank(Piece(bs, path, k.length), k) else []);
  }

  lemma PrefixIs(path: seq<byte>, q: seq<byte>)
    requires Absolute(path) && HasPrefix(path, q)
    ensures |q| <= |path| && q == path[..|q|]
  {
  }

  lemma {:induction false} MatchesOfRank(b: Bucket, path: seq<byte>, k: Rank)
    requires Absolute(path)
    ensures OfRank(Matches(b, path), k) ==
            if k.length <= |path| && HasPrefix(path, path[..k.length]) then OfRank(AtPath(b, path[..k.length]), k)
            else []
    decreases |b|
  {
    if |b| > 0 {
      var e := b[0];
      MatchesOfRank(b[1..], path, k);
      var hit: seq<Entry> := if HasPrefix(path, e.path) then [e] else [];
      OfRankSplit(hit, Matches(b[1..], path), k);
      OfRankOne(e, k);
      if HasPrefix(path, e.path) {
        PrefixIs(path, e.path);
      }
      if k.length <= |path| {
        var q := path[..k.length];
        var at: seq<Entry> := if e.path == q then [e] else [];
        OfRankSplit(at, AtPath(b[1..], q), k);
      }
    }
  }

  lemma OfRankOne(e: Entry, k: Rank)
    ensures OfRank([e], k) == (if RankOf(e) == k then [e] else []) && OfRank([], k) == []
  {
  }

  lemma {:induction false} AtPathElsewhere(b: Bucket, q: seq<byte>)
    requires forall i :: 0 <= i < |b| ==> b[i].path != q
    ensures AtPath(b, q) == []
    decreases |b|
  {
    if |b| > 0 {
      AtPathElsewhere(b[1..], q);
    }
  }

  lemma {:induction false} AllMatchesOfRank(bs: seq<Bucket>, i: nat, path: seq<byte>, k: Rank)
    requires Absolute(path) && k.length <= |path| && i <= |bs| && |bs| > 0
    requires forall h :: 0 <= h < |bs| ==> Placed(bs[h], h, |bs|)
    ensures OfRank(AllMatches(bs[i..], path), k) ==
            if i <= HashOf(path[..k.length], |bs|) then OfRank(Piece(bs, path, k.length), k) else []
    decreases |bs| - i
  {
    if i < |bs| {
      var q := path[..k.length];
      assert bs[i..][1..] == bs[i + 1..] && bs[i..][0] == bs[i];
      OfRankSplit(Matches(bs[i], path), AllMatches(bs[i + 1..], path), k);
      MatchesOfRank(bs[i], path, k);
      AllMatchesOfRank(bs, i + 1, path, k);
      if i != HashOf(q, |bs|) {
        AtPathElsewhere(bs[i], q);
      }
    }
  }

  lemma {:induction false} LongerNeverMatch(bs: seq<Bucket>, path: seq<byte>, k: Rank)
    requires Absolute(path) && k.length > |path|
    ensures OfRank(AllMatches(bs, path), k) == []
    decreases |bs|
  {
    if |bs| > 0 {
      OfRankSplit(Matches(bs[0], path), AllMatches(bs[1..], path), k);
      MatchesOfRank(bs[0], path, k);
      LongerNeverMatch(bs[1..], path, k);
    }
  }

  lemma AnswerIsMatches(bs: seq<Bucket>, path: seq<byte>, k: Rank)
    requires Absolute(path) && |bs| > 0
    requires forall h :: 0 <= h < |bs| ==> BucketOk(bs[h], h, |bs|)
    ensures OfRank(Answer(bs, path, |path|), k) == OfRank(AllMatches(bs, path), k)
  {
    AnswerOfRank(bs, path, |path|, k);
    if k.length <= |path| {
      AllMatchesOfRank(bs, 0, path, k);
      assert bs[0..] == bs;
    } else {
      LongerNeverMatch(bs, path, k);
    }
  }

  /** The only order a walk can return: sorting the matches, whatever the buckets' order was, gives
      every prefix's entries, longest prefix first, each union in search order. */
  lemma SortedMatches(bs: seq<Bucket>, path: seq<byte>, result: seq<Entry>)
    requires Absolute(path) && |bs| > 0
    requires forall h :: 0 <= h < |bs| ==> BucketOk(bs[h], h, |bs|)
    requires Ordered(result) && Stable(AllMatches(bs, path), result)
    ensures result == Answer(bs, path, |path|)
  {
    AnswerOrdered(bs, path, |path|);
    forall k ensures OfRank(result, k) == OfRank(Answer(bs, path, |path|), k) {
      AnswerIsMatches(bs, path, k);
      assert OfRank(AllMatches(bs, path), k) == OfRank(result, k);
    }
    OrderedUnique(result, Answer(bs, path, |path|));
  }

  // ---------------------------------------------------------------- the main result

  /** The ids a walk should list: the union at each prefix of path, longest first. */
  function Unions(run: Trace<Op>, path: seq<byte>, n: nat, size: nat): seq<nat>
    requires size > 0 && n <= |path|
  {
    UnionOf(run, path, n, size) + (if n == 0 then [] else Unions(run, path, n - 1, size))
  }

  function UnionOf(run: Trace<Op>, path: seq<byte>, n: nat, size: nat): seq<nat>
    requires size > 0 && n <= |path|
  {
    if HasPrefix(path, path[..n]) then UnionAt(run, path[..n], size) else []
  }

  lemma PieceIds(run: Trace<Op>, bs: seq<Bucket>, path: seq<byte>, n: nat, size: nat)
    requires size > 0 && n <= |path| && bs == Buckets(run, size)
    ensures Ids(Piece(bs, path, n)) == UnionOf(run, path, n, size)
  {
    BucketHoldsUnion(run, path[..n], size);
  }

  lemma IdsOfJoin(all: seq<Entry>, head: seq<Entry>, tail: seq<Entry>, a: seq<nat>, b: seq<nat>)
    requires all == head + tail && Ids(head) == a && Ids(tail) == b
    ensures Ids(all) == a + b
  {
    IdsJoin(head, tail);
  }

  lemma {:induction false} AnswerIds(run: Trace<Op>, bs: seq<Bucket>, path: seq<byte>, n: nat, size: nat)
    requires size > 0 && n <= |path| && bs == Buckets(run, size)
    ensures Ids(Answer(bs, path, n)) == Unions(run, path, n, size)
    decreases n
  {
    var all, head := Answer(bs, path, n), Piece(bs, path, n);
    PieceIds(run, bs, path, n, size);
    if n == 0 {
      IdsOfJoin(all, head, [], UnionOf(run, path, n, size), []);
    } else {
      AnswerIds(run, bs, path, n - 1, size);
      IdsOfJoin(all, head, Answer(bs, path, n - 1), UnionOf(run, path, n, size), Unions(run, path, n - 1, size));
    }
  }

  /** After every run, whatever order a stable sort of all matches leaves is the union order. */
  lemma WalkListsUnions(run: Trace<Op>, size: nat, path: seq<byte>, result: seq<Entry>)
    requires size > 0 && Absolute(path)
    requires Ordered(result) && Stable(AllMatches(Buckets(run, size), path), result)
    ensures Ids(result) == Unions(run, path, |path|, size)
  {
    var bs := Buckets(run, size);
    forall h | 0 <= h < |bs| ensures BucketOk(bs[h], h, |bs|) {
      RunKeeps(run, size, h);
    }
    SortedMatches(bs, path, result);
    AnswerIds(run, bs, path, |path|, size);
  }

  /** A walk matches exactly as many entries as the unions of the prefixes hold. */
  lemma MatchCount(run: Trace<Op>, size: nat, path: seq<byte>)
    requires size > 0 && Absolute(path)
    ensures |AllMatches(Buckets(run, size), path)| == |Unions(run, path, |path|, size)|
  {
    var bs := Buckets(run, size);
    forall h | 0 <= h < |bs| ensures BucketOk(bs[h], h, |bs|) {
      RunKeeps(run, size, h);
    }
    forall k ensures OfRank(Answer(bs, path, |path|), k) == OfRank(AllMatches(bs, path), k) {
      AnswerIsMatches(bs, path, k);
    }
    SameCount(Answer(bs, path, |path|), AllMatches(bs, path));
    AnswerIds(run, bs, path, |path|, size);
  }
}
