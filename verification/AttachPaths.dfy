/** What a Tattach makes of its aname: which bytes it takes for it, and what it does with them. */
module AttachPaths {
  import opened Bytes
  import opened PathNames
  import opened Traces
  import opened Session
  import opened Wire
  import opened WalkBalance

  // ---------------------------------------------------------------- the component loop

  /** What the element loop of a Twalk says, in the terms of an attach. */
  function AsAname(w: Walked): AnameWalk { AnameWalk(if w.Reached? then w.node else 0, w.log) }

  function AnameJob(cfg: Config, env: Env, fid: nat, n: nat): WalkJob { WalkJob(cfg, [], env, fid, env.root, n) }

  /** The aname loop walks its components as a Twalk walks its names. */
  lemma {:induction false} AnameIsWalk(j: WalkJob, names: seq<seq<byte>>, k: nat, node: nat, qids: seq<Qid>, log: Log)
    requires j.start == j.env.root && j.nw == k + |names|
    ensures WalkAname(j.cfg, j.env, j.fid, names, k, node, log) == AsAname(WalkList(j, names, k, node, qids, log))
    decreases |names|
  {
    if |names| > 0 && WalkAnswer(j.env, k) != 0 {
      var child := WalkAnswer(j.env, k);
      AnameIsWalk(j, names[1..], k + 1, child, qids + [j.env.qid(child)],
                  Drop(j.cfg, node, j.start, Then(log, FsWalk(j.fid, node, names[0]))));
    }
  }

  /** The nodes an attach finds on the way to its subtree. */
  function NodesOnPath(env: Env, aname: seq<byte>): seq<nat> { env.walks[..Found(env, 0, |Components(aname)|)] }

  /** The names a walk hands over, by the number of nodes it finds. */
  lemma NamesAsked(j: WalkJob, names: seq<seq<byte>>, log: Log, n: nat)
    requires n == |j.env.walks[..Found(j.env, 0, |names|)]|
    ensures NamesOf(WalkList(j, names, 0, j.start, [], log).log)
            == Append(NamesOf(log), names[..if n < |names| then n + 1 else n])
  {
    ListNames(j, names, 0, j.start, [], log);
  }

  /** The names handed to the filesystem are the components of the aname, up to and including the first
      that is missing. */
  lemma AnameHandsNames(cfg: Config, env: Env, fid: nat, aname: seq<byte>, log: Log)
    ensures var names, n := Components(aname), |NodesOnPath(env, aname)|;
            NamesOf(WalkAname(cfg, env, fid, Components(aname), 0, env.root, log).log)
            == Append(NamesOf(log), names[..if n < |names| then n + 1 else n])
  {
    var names := Components(aname);
    AnameIsWalk(AnameJob(cfg, env, fid, |names|), names, 0, env.root, [], log);
    NamesAsked(AnameJob(cfg, env, fid, |names|), names, log, |NodesOnPath(env, aname)|);
  }

  lemma WalkEndsAt(j: WalkJob, names: seq<seq<byte>>, log: Log, nodes: seq<nat>)
    requires j.start != 0 && j.nw == |names| && nodes == j.env.walks[..Found(j.env, 0, |names|)]
    ensures var node := AsAname(WalkList(j, names, 0, j.start, [], log)).node;
            && (node == 0 <==> |nodes| < |names|)
            && (node != 0 ==> node == if |nodes| == 0 then j.start else nodes[|nodes| - 1])
  {
    ListEnds(j, names, 0, j.start, [], log);
    FoundNonNull(j.env, 0, |names|);
  }

  /** The walk ends at the last node exactly when no component is missing. */
  lemma AnameEnds(cfg: Config, env: Env, fid: nat, aname: seq<byte>, log: Log)
    requires env.root != 0
    ensures var nodes := NodesOnPath(env, aname);
            var node := WalkAname(cfg, env, fid, Components(aname), 0, env.root, log).node;
            && (node == 0 <==> |nodes| < |Components(aname)|)
            && (node != 0 ==> node == if |nodes| == 0 then env.root else nodes[|nodes| - 1])
  {
    var names := Components(aname);
    AnameIsWalk(AnameJob(cfg, env, fid, |names|), names, 0, env.root, [], log);
    WalkEndsAt(AnameJob(cfg, env, fid, |names|), names, log, NodesOnPath(env, aname));
  }

  /** Over a filesystem that has a clunk and hands out handles of its own, every node found is clunked
      exactly once, except the one the fid keeps; the root never is. */
  lemma AnameGivesBack(cfg: Config, env: Env, fid: nat, aname: seq<byte>, log: Log)
    requires cfg.canClunk && env.root != 0 && Fresh(env, env.root)
    ensures var w, nodes := WalkAname(cfg, env, fid, Components(aname), 0, env.root, log), NodesOnPath(env, aname);
            && ClunksOf(w.log) == Append(ClunksOf(log), if w.node != 0 then nodes[..Before(|nodes|)] else nodes)
            && (forall a, b :: 0 <= a < b < |nodes| ==> nodes[a] != nodes[b]) && env.root !in nodes
  {
    var names, nodes := Components(aname), NodesOnPath(env, aname);
    var j := AnameJob(cfg, env, fid, |names|);
    AnameIsWalk(AnameJob(cfg, env, fid, |names|), names, 0, env.root, [], log);
    ListEnds(j, names, 0, env.root, [], log);
    LoopGivesBack(j, names, log, |nodes|);
    FoundNonNull(env, 0, |names|);
    assert env.walks[..Before(|nodes|)] == nodes[..Before(|nodes|)];
  }

  // ---------------------------------------------------------------- one Tattach

  function Authority(cfg: Config, x: Session, msg: seq<byte>, env: Env): AttachAuth
    requires |msg| >= 15
  {
    AttachAuthority(cfg, x, U32(msg, 11), AttachUname(msg, env))
  }

  /** A Tattach that gets as far as its aname: not refused, with an entry for its fid and a root. */
  predicate Descends(cfg: Config, x: Session, msg: seq<byte>, env: Env) {
    && |msg| >= 15 && !Authority(cfg, x, msg, env).Denied?
    && AllocAt(x.fids, U32(msg, 7)) < |x.fids| && env.root != 0
  }

  /** The name an attach is made under. */
  function MadeUnder(cfg: Config, x: Session, msg: seq<byte>, env: Env): seq<byte>
    requires |msg| >= 15
  {
    var a := Authority(cfg, x, msg, env);
    if a.Authentic? then a.id else AttachUname(msg, env)
  }

  /** The bytes a Tattach takes for its aname. */
  function AnameTaken(cfg: Config, x: Session, msg: seq<byte>, env: Env): seq<byte>
    requires |msg| >= 15
  {
    AttachAname(msg, |MadeUnder(cfg, x, msg, env)|)
  }

  lemma RootBound(x: Session, fid: nat, k: nat, uname: seq<byte>, authentic: bool, root: nat)
    requires k < |x.fids|
    ensures var y := AttachRoot(x, fid, k, uname, authentic, root);
            && |y.fids| == |x.fids| && y.fids == x.fids[k := y.fids[k]] && y.log == Then(x.log, Bound(fid))
            && y.fids[k].inUse && y.fids[k].fid == fid
  {
  }

  lemma AttachDescends(cfg: Config, x: Session, msg: seq<byte>, env: Env)
    requires Descends(cfg, x, msg, env)
    ensures var d, fid := HandleTattach(cfg, x, msg, env), U32(msg, 7);
            var aname, k := AnameTaken(cfg, x, msg, env), AllocAt(x.fids, fid);
            var w := WalkAname(cfg, env, fid, Components(aname), 0, env.root, Then(x.log, Bound(fid)));
            && d.x.log == w.log && |d.x.fids| == |x.fids|
            && if w.node == 0 then d.body == Rerror(AnameNotFound)
               else d.body == Rattach(env.qid(w.node)) && d.x.fids == x.fids[k := d.x.fids[k]]
                    && d.x.fids[k].inUse && d.x.fids[k].fid == fid && d.x.fids[k].node == w.node
  {
    var fid, uname := U32(msg, 7), MadeUnder(cfg, x, msg, env);
    var k, authentic := AllocAt(x.fids, fid), Authority(cfg, x, msg, env).Authentic?;
    RootBound(x, fid, k, uname, authentic, env.root);
  }

  /** The aname an attach takes is handed to the filesystem component by component, up to and including
      the first that is missing. */
  lemma AttachHandsNames(cfg: Config, x: Session, msg: seq<byte>, env: Env)
    requires Descends(cfg, x, msg, env)
    ensures var names, n := Components(AnameTaken(cfg, x, msg, env)), |NodesOnPath(env, AnameTaken(cfg, x, msg, env))|;
            NamesOf(HandleTattach(cfg, x, msg, env).x.log)
            == Append(NamesOf(x.log), names[..if n < |names| then n + 1 else n])
  {
    var bound := Then(x.log, Bound(U32(msg, 7)));
    AttachDescends(cfg, x, msg, env);
    AnameHandsNames(cfg, env, U32(msg, 7), AnameTaken(cfg, x, msg, env), bound);
    assert NamesOf(bound) == NamesOf(x.log);
  }

  /** If no component is missing the fid stands at the last node, the root for no component, and
      otherwise the attach fails. */
  lemma AttachStandsAtAname(cfg: Config, x: Session, msg: seq<byte>, env: Env)
    requires Descends(cfg, x, msg, env)
    ensures var d, aname := HandleTattach(cfg, x, msg, env), AnameTaken(cfg, x, msg, env);
            var nodes, k := NodesOnPath(env, aname), AllocAt(x.fids, U32(msg, 7));
            && |d.x.fids| == |x.fids|
            && if |nodes| < |Components(aname)| then d.body == Rerror(AnameNotFound)
               else d.x.fids[k].inUse && d.x.fids[k].fid == U32(msg, 7)
                    && d.x.fids[k].node == (if |nodes| == 0 then env.root else nodes[|nodes| - 1])
                    && d.body == Rattach(env.qid(d.x.fids[k].node))
  {
    var fid, aname := U32(msg, 7), AnameTaken(cfg, x, msg, env);
    AttachDescends(cfg, x, msg, env);
    AnameEnds(cfg, env, fid, aname, Then(x.log, Bound(fid)));
  }

  /** And what it gives back: every node found exactly once, except the one the fid keeps. */
  lemma AttachGivesBack(cfg: Config, x: Session, msg: seq<byte>, env: Env)
    requires Descends(cfg, x, msg, env) && cfg.canClunk && Fresh(env, env.root)
    ensures var d, nodes := HandleTattach(cfg, x, msg, env), NodesOnPath(env, AnameTaken(cfg, x, msg, env));
            && ClunksOf(d.x.log) == Append(ClunksOf(x.log), if d.body.Rattach? then nodes[..Before(|nodes|)] else nodes)
            && (forall a, b :: 0 <= a < b < |nodes| ==> nodes[a] != nodes[b]) && env.root !in nodes
  {
    var fid := U32(msg, 7);
    AttachDescends(cfg, x, msg, env);
    AnameGivesBack(cfg, env, fid, AnameTaken(cfg, x, msg, env), Then(x.log, Bound(fid)));
  }

  // ---------------------------------------------------------------- which bytes are the aname

  /** A Tattach that relies on its afid for the name, under a name the frame does not hold. */
  predicate Shifted(a: AttachAuth, uname: seq<byte>) { a.Authentic? && uname == [] && a.id != [] }

  /** Looked for behind a name the frame does not hold, an aname is never found: what is taken for it is
      shorter. */
  lemma AnameMissed(m: seq<byte>, aname: seq<byte>, n: nat)
    requires |m| == 19 + |aname| && n > 0
    ensures |AttachAname(m, n)| < |aname| || AttachAname(m, n) == []
    ensures |aname| < n ==> AttachAname(m, n) == []
  {
  }

  /** The aname taken is the one that was sent if, and only if, the attach is a guest's, or names its
      user, or the authenticated identity is empty, or there is no aname. */
  lemma AnameTakenIff(cfg: Config, x: Session, env: Env, tag: nat, fid: nat, afid: nat, uname: seq<byte>,
                      aname: seq<byte>)
    requires tag < MOD16 && fid < MOD32 && afid < MOD32 && |uname| < MOD16 && |aname| < MOD16
    requires !AttachAuthority(cfg, x, afid, uname).Denied?
    ensures AnameTaken(cfg, x, Tattach(tag, fid, afid, uname, aname), env) == aname
            <==> !Shifted(AttachAuthority(cfg, x, afid, uname), uname) || aname == []
  {
    var m, a := Tattach(tag, fid, afid, uname, aname), AttachAuthority(cfg, x, afid, uname);
    TattachReadBack(tag, fid, afid, uname, aname, env);
    if Shifted(a, uname) {
      AnameMissed(m, aname, |a.id|);
    }
  }

  /** With an aname shorter than the identity such an attach ends, without an error, at the root. */
  lemma ShiftedEndsAtRoot(cfg: Config, x: Session, env: Env, tag: nat, fid: nat, afid: nat, aname: seq<byte>)
    requires tag < MOD16 && fid < MOD32 && afid < MOD32 && |aname| < MOD16
    requires Shifted(AttachAuthority(cfg, x, afid, []), []) && |aname| < |AttachAuthority(cfg, x, afid, []).id|
    requires AllocAt(x.fids, fid) < |x.fids| && env.root != 0
    ensures var d, k := HandleTattach(cfg, x, Tattach(tag, fid, afid, [], aname), env), AllocAt(x.fids, fid);
            && d.body == Rattach(env.qid(env.root)) && |d.x.fids| == |x.fids| && d.x.fids[k].fid == fid
            && d.x.fids[k].node == env.root && NamesOf(d.x.log) == NamesOf(x.log)
  {
    var m, a := Tattach(tag, fid, afid, [], aname), AttachAuthority(cfg, x, afid, []);
    TattachReadBack(tag, fid, afid, [], aname, env);
    AnameMissed(m, aname, |a.id|);
    AttachHandsNames(cfg, x, m, env);
    AttachStandsAtAname(cfg, x, m, env);
  }
}
