/** The union filesystem's mount table, and its agreement with the namespace on the longest prefix. */
module UnionFs {
  import opened Bytes
  import opened Options
  import opened PathNames
  import opened Normalize
  import opened Traces
  import opened Namespace
  import opened MountOrder

  datatype UnionMount = UnionMount(path: seq<byte>, root: nat)

  datatype MountRc = Mounted | NoSpace | Exists | NotSupported | NoRoot

  predicate Handles(path: seq<byte>, mount: seq<byte>) {
    mount <= path && (|mount| == 1 || |path| == |mount| || path[|mount|] == SLASH)
  }

  predicate Distinct(ms: seq<UnionMount>) {
    forall i, j :: 0 <= i < j < |ms| ==> ms[i].path != ms[j].path
  }

  /** Mount i handles the path, and no mount among the first n that does has a longer path. */
  predicate Longest(ms: seq<UnionMount>, n: nat, path: seq<byte>, i: nat)
    requires i < n <= |ms|
  {
    && Handles(path, ms[i].path)
    && forall j :: 0 <= j < n && Handles(path, ms[j].path) ==> |ms[j].path| <= |ms[i].path|
  }

  class UnionTable {
    const max: nat
    var mounts: seq<UnionMount>

    ghost predicate Valid()
      reads this
    {
      |mounts| <= max && Distinct(mounts)
    }

    constructor (max: nat)
      ensures Valid() && this.max == max && mounts == []
    {
      this.max := max;
      mounts := [];
    }

    /** root is what get_root answers: 0 for NULL. */
    method Mount(path: seq<byte>, hasGetRoot: bool, root: nat) returns (rc: MountRc)
      requires Valid()
      modifies this
      ensures Valid()
      ensures mounts == if rc.Mounted? then old(mounts) + [UnionMount(path, root)] else old(mounts)
      ensures rc == if old(|mounts|) == max then NoSpace
                    else if exists i :: 0 <= i < old(|mounts|) && old(mounts)[i].path == path then Exists
                    else if !hasGetRoot then NotSupported
                    else if root == 0 then NoRoot
                    else Mounted
    {
      if |mounts| >= max {
        return NoSpace;
      }
      var i := 0;
      while i < |mounts|
        invariant i <= |mounts| && forall j :: 0 <= j < i ==> mounts[j].path != path
      {
        if mounts[i].path == path {
          return Exists;
        }
        i := i + 1;
      }
      if !hasGetRoot {
        return NotSupported;
      }
      if root == 0 {
        return NoRoot;
      }
      mounts := mounts + [UnionMount(path, root)];
      rc := Mounted;
    }

    method FindMountPoint(path: seq<byte>) returns (best: Option<nat>)
      requires Valid()
      ensures best.None? <==> forall j :: 0 <= j < |mounts| ==> !Handles(path, mounts[j].path)
      ensures best.Some? ==> best.value < |mounts| && Longest(mounts, |mounts|, path, best.value)
    {
      best := None;
      var longest := 0;
      var i := 0;
      while i < |mounts|
        invariant i <= |mounts|
        invariant best.None? ==> longest == 0 && forall j :: 0 <= j < i ==> !Handles(path, mounts[j].path)
        invariant best.Some? ==> best.value < i && Longest(mounts, i, path, best.value)
        invariant best.Some? ==> longest == |mounts[best.value].path|
      {
        var m := mounts[i].path;
        if |m| <= |path| && |m| >= longest && path[..|m|] == m {
          if |m| == 1 || |m| == |path| || path[|m|] == SLASH {
            best, longest := Some(i), |m|;
          }
        }
        i := i + 1;
      }
    }
  }

  // ---------------------------------------------------------------- prefixes are prefixes of components

  lemma {:induction false} ComponentsSplit(a: seq<byte>, b: seq<byte>)
    requires |b| == 0 || b[0] == SLASH
    ensures Components(a + b) == Components(a) + Components(b)
    decreases |a|
  {
    if |a| == 0 {
      assert a + b == b;
    } else if a[0] == SLASH {
      assert (a + b)[1..] == a[1..] + b;
      ComponentsSplit(a[1..], b);
    } else {
      var n := SlashAt(a);
      SlashAtIs(a + b, n);
      assert (a + b)[..n] == a[..n] && (a + b)[n..] == a[n..] + b;
      ComponentsSplit(a[n..], b);
      var x, y, z := [a[..n]], Components(a[n..]), Components(b);
      assert x + (y + z) == x + y + z;
    }
  }

  predicate IsNormal(path: seq<byte>) { path == Render(Components(path)) }

  lemma {:induction false} JoinSplit(a: seq<seq<byte>>, b: seq<seq<byte>>)
    ensures Join(a + b) == Join(a) + Join(b)
    decreases |a|
  {
    if |a| == 0 {
      assert a + b == b;
    } else {
      JoinSplit(a[1..], b);
      assert (a + b)[1..] == a[1..] + b;
      var x, y, z := [SLASH] + a[0], Join(a[1..]), Join(b);
      assert x + (y + z) == x + y + z;
    }
  }

  /** A textual prefix that ends at a boundary is a prefix of the components, and the other way round. */
  lemma PrefixIsComponentwise(path: seq<byte>, mount: seq<byte>)
    requires IsNormal(path) && IsNormal(mount)
    ensures HasPrefix(path, mount) <==> Components(mount) <= Components(path)
    ensures HasPrefix(path, mount) <==> Handles(path, mount)
  {
    var cp, cm := Components(path), Components(mount);
    if mount <= path && (|path| == |mount| || path[|mount|] == SLASH) {
      var rest := path[|mount|..];
      assert path == mount + rest;
      ComponentsSplit(mount, rest);
    }
    if cm <= cp && cm != [] {
      var rest := cp[|cm|..];
      assert cp == cm + rest;
      JoinSplit(cm, rest);
    }
  }

  function Relative(path: seq<byte>, mount: seq<byte>): (r: seq<byte>)
    requires mount == [SLASH] || mount <= path
  {
    if mount == [SLASH] then path else if |path| == |mount| then [SLASH] else path[|mount|..]
  }

  /** The mount path and the relative path rebuild the path: its components are the mount's, then
      the relative path's, and the relative path is normal again. */
  lemma RelativeRebuilds(path: seq<byte>, mount: seq<byte>)
    requires IsNormal(path) && IsNormal(mount) && Handles(path, mount)
    ensures var r := Relative(path, mount);
            && Components(path) == Components(mount) + Components(r) && IsNormal(r)
            && path == if mount == [SLASH] then r else if r == [SLASH] then mount else mount + r
  {
    var r, cm := Relative(path, mount), Components(mount);
    if mount == [SLASH] {
      assert Components([SLASH]) == [] && [] + Components(path) == Components(path);
    } else if |path| == |mount| {
      assert path == mount && Components([SLASH]) == [];
    } else {
      assert path == mount + r;
      ComponentsSplit(mount, r);
      JoinSplit(cm, Components(r));
      assert |cm| > 0 && path == Join(cm) + Join(Components(r)) == mount + r;
      assert r == Join(Components(r)) by {
        assert (mount + r)[|mount|..] == r && (mount + Join(Components(r)))[|mount|..] == Join(Components(r));
      }
    }
  }

  // ---------------------------------------------------------------- agreement with the namespace

  function IndexAt(ms: seq<UnionMount>, q: seq<byte>): (r: seq<nat>)
    ensures |r| == 0 ==> forall i :: 0 <= i < |ms| ==> ms[i].path != q
    ensures |r| > 0 ==> |r| == 1 && r[0] < |ms| && ms[r[0]].path == q
  {
    if |ms| == 0 then []
    else
      var n := |ms| - 1;
      if ms[n].path == q then [n] else IndexAt(ms[..n], q)
  }

  /** The namespace has the same things mounted, one at each path. */
  ghost predicate SameMounts(run: Trace<Op>, size: nat, ms: seq<UnionMount>)
    requires size > 0
  {
    forall q :: UnionAt(run, q, size) == IndexAt(ms, q)
  }

  function MountAll(ms: seq<UnionMount>, flags: nat -> bool): Trace<Op> {
    if |ms| == 0 then Start
    else
      var n := |ms| - 1;
      Then(MountAll(ms[..n], flags), Op.Mount(ms[n].path, n, if flags(n) then Before else After))
  }

  /** Mounting each once, before or after, makes the namespace hold the same mounts. */
  lemma {:induction false} MountAllSame(ms: seq<UnionMount>, flags: nat -> bool, size: nat)
    requires size > 0 && Distinct(ms)
    ensures SameMounts(MountAll(ms, flags), size, ms)
    decreases |ms|
  {
    if |ms| > 0 {
      var n := |ms| - 1;
      MountAllSame(ms[..n], flags, size);
      forall q ensures UnionAt(MountAll(ms, flags), q, size) == IndexAt(ms, q) {
        assert UnionAt(MountAll(ms[..n], flags), q, size) == IndexAt(ms[..n], q);
        var r := IndexAt(ms[..n], q);
        if |r| > 0 {
          assert ms[..n][r[0]] == ms[r[0]];
        }
      }
    }
  }

  predicate NoneUpTo(ms: seq<UnionMount>, path: seq<byte>, n: nat) {
    forall j :: 0 <= j < |ms| && Handles(path, ms[j].path) ==> |ms[j].path| > n
  }

  predicate LongestUpTo(ms: seq<UnionMount>, path: seq<byte>, n: nat, i: nat) {
    && i < |ms| && Handles(path, ms[i].path) && |ms[i].path| <= n
    && forall j :: 0 <= j < |ms| && Handles(path, ms[j].path) && |ms[j].path| <= n ==> |ms[j].path| <= |ms[i].path|
  }

  /** Nothing at the prefix of n characters, or the mount there. */
  lemma UnionOfIs(run: Trace<Op>, size: nat, ms: seq<UnionMount>, path: seq<byte>, n: nat)
    requires size > 0 && SameMounts(run, size, ms) && Absolute(path) && n <= |path|
    ensures var u := UnionOf(run, path, n, size);
            if u == [] then forall j :: 0 <= j < |ms| && Handles(path, ms[j].path) ==> |ms[j].path| != n
            else u[0] < |ms| && Handles(path, ms[u[0]].path) && |ms[u[0]].path| == n
  {
    var q := path[..n];
    assert UnionAt(run, q, size) == IndexAt(ms, q);
    forall j | 0 <= j < |ms| && Handles(path, ms[j].path) && |ms[j].path| == n
      ensures HasPrefix(path, q) && ms[j].path == q {
    }
  }

  /** The longest up to n is the one of length n, if there is one, or else the longest up to n - 1. */
  lemma LongestStep(ms: seq<UnionMount>, path: seq<byte>, n: nat, a: seq<nat>, b: seq<nat>)
    requires if a == [] then forall j :: 0 <= j < |ms| && Handles(path, ms[j].path) ==> |ms[j].path| != n
             else a[0] < |ms| && Handles(path, ms[a[0]].path) && |ms[a[0]].path| == n
    requires n > 0 ==> if b == [] then NoneUpTo(ms, path, n - 1) else LongestUpTo(ms, path, n - 1, b[0])
    requires n == 0 ==> b == []
    ensures if a + b == [] then NoneUpTo(ms, path, n) else LongestUpTo(ms, path, n, (a + b)[0])
  {
    assert a != [] ==> (a + b)[0] == a[0];
    assert a == [] ==> a + b == b;
  }

  lemma {:induction false} UnionsHead(run: Trace<Op>, size: nat, ms: seq<UnionMount>, path: seq<byte>, n: nat)
    requires size > 0 && SameMounts(run, size, ms) && Absolute(path) && n <= |path|
    ensures var u := Unions(run, path, n, size);
            if u == [] then NoneUpTo(ms, path, n) else LongestUpTo(ms, path, n, u[0])
    decreases n
  {
    UnionOfIs(run, size, ms, path, n);
    var a := UnionOf(run, path, n, size);
    if n == 0 {
      LongestStep(ms, path, n, a, []);
    } else {
      UnionsHead(run, size, ms, path, n - 1);
      LongestStep(ms, path, n, a, Unions(run, path, n - 1, size));
    }
  }

  lemma OneLongest(ms: seq<UnionMount>, path: seq<byte>, i: nat, j: nat)
    requires Distinct(ms) && i < |ms| && j < |ms| && Longest(ms, |ms|, path, i) && Longest(ms, |ms|, path, j)
    ensures i == j
  {
    assert ms[i].path == path[..|ms[i].path|] == ms[j].path;
  }

  /** With the same mounts at distinct paths, find_mount_point and the first result of ns_walk are the
      same mount. */
  lemma SameMountChosen(run: Trace<Op>, size: nat, ms: seq<UnionMount>, path: seq<byte>, best: Option<nat>)
    requires size > 0 && SameMounts(run, size, ms) && Distinct(ms) && Absolute(path)
    requires best.None? <==> forall j :: 0 <= j < |ms| ==> !Handles(path, ms[j].path)
    requires best.Some? ==> best.value < |ms| && Longest(ms, |ms|, path, best.value)
    ensures var u := Unions(run, path, |path|, size); if u == [] then best.None? else best == Some(u[0])
  {
    UnionsHead(run, size, ms, path, |path|);
    var u := Unions(run, path, |path|, size);
    if u != [] {
      assert LongestUpTo(ms, path, |path|, u[0]) && Longest(ms, |ms|, path, u[0]);
      OneLongest(ms, path, best.value, u[0]);
    } else {
      assert NoneUpTo(ms, path, |path|);
    }
  }

  lemma {:induction false} JoinGrows(a: seq<seq<byte>>, b: seq<seq<byte>>)
    requires a <= b && a != b
    ensures |Join(a)| < |Join(b)|
  {
    assert b == a + b[|a|..];
    JoinSplit(a, b[|a|..]);
  }

  /** The longest mount path is the one with the most components: every other mount that handles the
      path has a prefix of its components. */
  lemma LongestIsDeepest(ms: seq<UnionMount>, path: seq<byte>, i: nat, j: nat)
    requires IsNormal(path) && i < |ms| && j < |ms| && IsNormal(ms[i].path) && IsNormal(ms[j].path)
    requires Longest(ms, |ms|, path, i) && Handles(path, ms[j].path)
    ensures Components(ms[j].path) <= Components(ms[i].path) <= Components(path)
  {
    var ci, cj := Components(ms[i].path), Components(ms[j].path);
    PrefixIsComponentwise(path, ms[i].path);
    PrefixIsComponentwise(path, ms[j].path);
    if |ci| < |cj| {
      assert ci <= cj;
      JoinGrows(ci, cj);
    }
  }
}
