/** A path from the client's splitter through the Twalk frame to the names the filesystem is given. */
module WalkPath {
  import opened Bytes
  import opened PathNames
  import opened Traces
  import opened Session
  import opened Dispatch
  import opened Wire
  import opened WalkBalance

  function Truncated<T>(s: seq<T>): seq<T> { if |s| > MAX_WELEM then s[..MAX_WELEM] else s }

  method PastSlashes(path: seq<byte>, from: nat) returns (p: nat)
    requires from <= |path|
    ensures from <= p <= |path| && (p < |path| ==> path[p] != SLASH)
    ensures Components(path[from..]) == Components(path[p..])
  {
    p := from;
    while p < |path| && path[p] == SLASH
      invariant from <= p <= |path| && forall k :: from <= k < p ==> path[k] == SLASH
    {
      p := p + 1;
    }
    SkipSlashes(path[from..], p - from);
    assert path[from..][p - from..] == path[p..];
  }

  method PastName(path: seq<byte>, start: nat) returns (p: nat)
    requires start < |path| && path[start] != SLASH
    ensures start < p <= |path|
    ensures Components(path[start..]) == [path[start..p]] + Components(path[p..])
  {
    p := start;
    while p < |path| && path[p] != SLASH
      invariant start <= p <= |path| && forall k :: start <= k < p ==> path[k] != SLASH
    {
      p := p + 1;
    }
    SlashAtIs(path[start..], p - start);
    assert path[start..][..p - start] == path[start..p] && path[start..][p - start..] == path[p..];
  }

  /** The client's splitter: at most sixteen components, the rest of the path is left unwalked. */
  method SplitPath(path: seq<byte>) returns (names: seq<seq<byte>>)
    ensures names == Truncated(Components(path))
  {
    names := [];
    var p := 0;
    assert path[0..] == path;
    while p < |path| && |names| < MAX_WELEM
      invariant p <= |path| && |names| <= MAX_WELEM
      invariant Components(path) == names + Components(path[p..])
      decreases |path| - p
    {
      p := PastSlashes(path, p);
      if p == |path| {
        break;
      }
      var start := p;
      p := PastName(path, start);
      ghost var before := names;
      names := names + [path[start..p]];
      assert before + ([path[start..p]] + Components(path[p..])) == names + Components(path[p..]);
    }
    assert p == |path| ==> path[p..] == [];
  }

  // ---------------------------------------------------------------- frame and parser

  lemma StringRead(m: seq<byte>, off: nat, name: seq<byte>, rest: seq<byte>)
    requires off <= |m| && m[off..] == Str(name) + rest && |name| < MOD16
    ensures !Cut(m, off) && U16(m, off) == |name| && NameAt(m, off) == name && m[off + 2 + |name|..] == rest
  {
    NameReadBack(m, off, name, rest);
  }

  lemma StringsStep(m: seq<byte>, off: nat, names: seq<seq<byte>>)
    requires |names| > 0 && off <= |m| && m[off..] == Str(names[0]) + Strs(names[1..]) && |names[0]| < MOD16
    ensures var next := off + 2 + |names[0]|;
            && next <= |m| && m[next..] == Strs(names[1..])
            && (Strings(m, next, |names| - 1) == names[1..] ==> Strings(m, off, |names|) == names)
  {
    StringRead(m, off, names[0], Strs(names[1..]));
    assert [names[0]] + names[1..] == names;
  }

  predicate AllShort(names: seq<seq<byte>>) { |names| > 0 ==> |names[0]| < MOD16 && AllShort(names[1..]) }

  /** The server's parser takes apart what the builder's loop put together. */
  lemma {:induction false} StringsReadBack(m: seq<byte>, off: nat, names: seq<seq<byte>>)
    requires off <= |m| && m[off..] == Strs(names) && AllShort(names)
    ensures Strings(m, off, |names|) == names
    decreases |names|
  {
    if |names| > 0 {
      StringsStep(m, off, names);
      StringsReadBack(m, off + 2 + |names[0]|, names[1..]);
    }
  }

  lemma TwalkReadBack(tag: nat, fid: nat, newfid: nat, names: seq<seq<byte>>)
    requires tag < MOD16 && fid < MOD32 && newfid < MOD32 && |names| <= MAX_WELEM
    requires |Twalk(tag, fid, newfid, names)| <= 65536
    ensures var m := Twalk(tag, fid, newfid, names);
            && WellFormed(m) && m[4] == TWALK && U16(m, 5) == tag && U32(m, 7) == fid && U32(m, 11) == newfid
            && U16(m, 15) == |names| && Strings(m, 17, |names|) == names
  {
    var m := Twalk(tag, fid, newfid, names);
    HeaderReadBack(TWALK, tag, LE32(fid) + LE32(newfid) + LE16(|names|) + Strs(names));
    assert m[7..11] == LE32(fid) && m[11..15] == LE32(newfid) && m[15..17] == LE16(|names|) && m[17..] == Strs(names);
    Field32(m, 7, fid);
    Field32(m, 11, newfid);
    Field16(m, 15, |names|);
    StrsHoldsEach(names);
    StringsReadBack(m, 17, names);
  }

  lemma {:induction false} StrsHoldsEach(names: seq<seq<byte>>)
    requires |Strs(names)| < MOD16
    ensures AllShort(names)
    decreases |names|
  {
    if |names| > 0 {
      StrsHoldsEach(names[1..]);
    }
  }

  /** From the path to the filesystem: the names the server's loop hands over are the first sixteen
      components of the path, in order, up to and including the first that is not found. */
  lemma PathReachesFilesystem(cfg: Config, x: Session, env: Env, tag: nat, fid: nat, newfid: nat, path: seq<byte>)
    requires tag < MOD16 && fid < MOD32 && newfid < MOD32
    requires |Twalk(tag, fid, newfid, Truncated(Components(path)))| <= 65536
    requires Walkable(x, Twalk(tag, fid, newfid, Truncated(Components(path))))
    ensures var m, names := Twalk(tag, fid, newfid, Truncated(Components(path))), Truncated(Components(path));
            var k := |NodesFound(m, env)|;
            && WellFormed(m) && k <= |names|
            && NamesOf(HandleTwalk(cfg, x, m, env).x.log)
               == Append(NamesOf(x.log), names[..if k < |names| then k + 1 else k])
  {
    var names := Truncated(Components(path));
    TwalkReadBack(tag, fid, newfid, names);
    TwalkHandsNames(cfg, x, Twalk(tag, fid, newfid, names), env);
  }

  /** So a walk that finds everything walks exactly the path if, and only if, the path has at most
      sixteen components. */
  lemma WholePathWalked(cfg: Config, x: Session, env: Env, tag: nat, fid: nat, newfid: nat, path: seq<byte>)
    requires tag < MOD16 && fid < MOD32 && newfid < MOD32
    requires |Twalk(tag, fid, newfid, Truncated(Components(path)))| <= 65536
    requires Walkable(x, Twalk(tag, fid, newfid, Truncated(Components(path))))
    requires |NodesFound(Twalk(tag, fid, newfid, Truncated(Components(path))), env)| == |Truncated(Components(path))|
    ensures NamesOf(HandleTwalk(cfg, x, Twalk(tag, fid, newfid, Truncated(Components(path))), env).x.log)
            == Append(NamesOf(x.log), Components(path))
            <==> |Components(path)| <= MAX_WELEM
  {
    var names := Truncated(Components(path));
    PathReachesFilesystem(cfg, x, env, tag, fid, newfid, path);
    assert names[..|names|] == names;
    AppendLength(NamesOf(x.log), names);
    AppendLength(NamesOf(x.log), Components(path));
  }
}
