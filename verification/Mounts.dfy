/** The namespace of one thread that shares nothing with a parent: ns_mount, ns_unmount and ns_walk. */
module Mounts {
  import opened Bytes
  import opened Normalize
  import opened Traces
  import opened Namespace
  import opened MountOrder

  class Table {
    const pathMax: nat
    var buckets: seq<Bucket>
    /** Every mount and unmount so far, with its path normalised. */
    ghost var run: Trace<Op>

    ghost predicate Valid()
      reads this
    {
      |buckets| > 0 && pathMax > 1 && buckets == Buckets(run, |buckets|)
    }

    constructor (size: nat, pathMax: nat)
      requires size > 0 && pathMax > 1
      ensures Valid() && this.pathMax == pathMax && |buckets| == size && run == Start
    {
      this.pathMax := pathMax;
      buckets := seq(size, _ => []);
      run := Start;
    }

    method Normalised(path: seq<byte>) returns (norm: seq<byte>)
      requires Valid() && 0 !in path
      ensures norm == Normal(path, pathMax)
    {
      var buf := new byte[pathMax];
      var ok, j := PathNormalize(path, buf);
      norm := buf[..j];
    }

    method Hash(path: seq<byte>) returns (h: nat)
      requires Valid()
      ensures h == HashOf(path, |buckets|)
    {
      var d: nat, i := 5381, 0;
      assert path[0..] == path;
      while i < |path|
        invariant i <= |path| && HashOf(path, |buckets|) == HashFrom(path[i..], d, |buckets|)
      {
        assert path[i..][1..] == path[i + 1..];
        d := (33 * d + path[i] as int) % MOD32;
        i := i + 1;
      }
      assert path[i..] == [];
      ResidueIsRemainder(d, |buckets|);
      h := d % |buckets|;
    }

    method MountAt(path: seq<byte>, id: nat, flag: Flag)
      requires Valid() && 0 !in path
      modifies this
      ensures Valid() && |buckets| == old(|buckets|)
      ensures run == Then(old(run), Mount(Normal(path, pathMax), id, flag))
    {
      var norm := Normalised(path);
      var h := Hash(norm);
      var b := buckets[h];
      match flag {
      case Replace => buckets := buckets[h := [Entry(norm, id, 0)]];
      case Before => buckets := buckets[h := [Entry(norm, id, 0)] + b];
      case After =>
        var priority, tail := 0, 0;
        while tail < |b|
          invariant tail <= |b| && priority == NextPriority(b[..tail])
        {
          priority := b[tail].priority + 1;
          tail := tail + 1;
        }
        assert b[..tail] == b;
        buckets := buckets[h := b + [Entry(norm, id, priority)]];
      }
      run := Then(run, Mount(norm, id, flag));
    }

    /** Unlink the first entry of the chain with this path. */
    static method Unlink(b: Bucket, norm: seq<byte>) returns (found: bool, rest: Bucket)
      ensures rest == Remove(b, norm) && (found <==> exists i :: 0 <= i < |b| && b[i].path == norm)
    {
      var i := 0;
      assert b[0..] == b && b[..0] == [];
      while i < |b|
        invariant i <= |b| && forall k :: 0 <= k < i ==> b[k].path != norm
        invariant Remove(b, norm) == b[..i] + Remove(b[i..], norm)
      {
        ghost var back := b[i..];
        assert back[1..] == b[i + 1..];
        if b[i].path == norm {
          return true, b[..i] + b[i + 1..];
        }
        assert b[..i] + ([b[i]] + Remove(b[i + 1..], norm)) == b[..i + 1] + Remove(b[i + 1..], norm);
        i := i + 1;
      }
      assert b[..i] == b;
      return false, b;
    }

    /** False when nothing is mounted at the path (-ENOENT). */
    method UnmountAt(path: seq<byte>) returns (found: bool)
      requires Valid() && 0 !in path
      modifies this
      ensures Valid() && |buckets| == old(|buckets|)
      ensures run == Then(old(run), Unmount(Normal(path, pathMax)))
      ensures found == (UnionAt(old(run), Normal(path, pathMax), |buckets|) != [])
    {
      var norm := Normalised(path);
      var h := Hash(norm);
      BucketHoldsUnion(run, norm, |buckets|);
      AtPathMounted(buckets[h], norm);
      var rest;
      found, rest := Unlink(buckets[h], norm);
      buckets := buckets[h := rest];
      run := Then(run, Unmount(norm));
    }

    /** The collecting loops of ns_walk, then its sort. */
    method Walk(path: seq<byte>, entries: array<Entry>) returns (count: nat)
      requires Valid() && 0 !in path
      modifies entries
      ensures count <= entries.Length && Ordered(entries[..count])
      ensures Stable(Upto(AllMatches(buckets, Normal(path, pathMax)), entries.Length), entries[..count])
      ensures var q := Normal(path, pathMax);
              Absolute(path) && |Unions(run, q, |q|, |buckets|)| <= entries.Length
              ==> Ids(entries[..count]) == Unions(run, q, |q|, |buckets|)
    {
      var norm := Normalised(path);
      count := 0;
      ghost var all := AllMatches(buckets, norm);
      var i := 0;
      assert buckets[0..] == buckets;
      ghost var seen: seq<Entry> := [];
      while i < |buckets|
        invariant i <= |buckets| && count <= entries.Length
        invariant all == seen + AllMatches(buckets[i..], norm) && entries[..count] == Upto(seen, entries.Length)
      {
        assert buckets[i..][1..] == buckets[i + 1..];
        ghost var more := Matches(buckets[i], norm);
        ghost var rest := AllMatches(buckets[i + 1..], norm);
        assert seen + (more + rest) == seen + more + rest;
        count := Gather(buckets[i], norm, entries, count, seen);
        seen := seen + more;
        i := i + 1;
      }
      assert all == seen;
      Sort(entries, count);
      if Absolute(path) {
        NormalAbsolute(path, pathMax);
        MatchCount(run, |buckets|, norm);
        if |all| <= entries.Length {
          WalkListsUnions(run, |buckets|, norm, entries[..count]);
        }
      }
    }

    static method Gather(b: Bucket, norm: seq<byte>, entries: array<Entry>, from: nat, ghost seen: seq<Entry>)
      returns (count: nat)
      requires from <= entries.Length && entries[..from] == Upto(seen, entries.Length)
      modifies entries
      ensures count <= entries.Length && entries[..count] == Upto(seen + Matches(b, norm), entries.Length)
    {
      count := from;
      var i := 0;
      ghost var done := seen;
      assert b[0..] == b;
      while i < |b|
        invariant i <= |b| && count <= entries.Length
        invariant seen + Matches(b, norm) == done + Matches(b[i..], norm)
                  && entries[..count] == Upto(done, entries.Length)
      {
        assert b[i..][1..] == b[i + 1..];
        ghost var hit := if HasPrefix(norm, b[i].path) then [b[i]] else [];
        assert done + (hit + Matches(b[i + 1..], norm)) == done + hit + Matches(b[i + 1..], norm);
        if HasPrefix(norm, b[i].path) {
          if count < entries.Length {
            ghost var was := entries[..count];
            entries[count] := b[i];
            count := count + 1;
            assert entries[..count] == was + [b[i]];
          }
        }
        done := done + hit;
        i := i + 1;
      }
    }
  }
}
