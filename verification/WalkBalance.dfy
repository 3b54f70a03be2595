/** What one Twalk hands to the filesystem, gives back to it, and reports to the client. */
module WalkBalance {
  import opened Bytes
  import opened Traces
  import opened Session

  /** Nodes clunked so far. */
  function ClunksOf(log: Log): Trace<nat> {
    match log
    case Start => Start
    case Then(before, e) => if e.FsClunk? then Then(ClunksOf(before), e.node) else ClunksOf(before)
  }

  /** Names handed to fs_ops->walk so far. */
  function NamesOf(log: Log): Trace<seq<byte>> {
    match log
    case Start => Start
    case Then(before, e) => if e.FsWalk? then Then(NamesOf(before), e.name) else NamesOf(before)
  }

  /** The strings a frame holds from `off` on: n of them, or fewer when it ends too soon. */
  function Strings(msg: seq<byte>, off: nat, n: nat): (r: seq<seq<byte>>)
    ensures |r| <= n
    decreases n
  {
    if n == 0 || Cut(msg, off) then []
    else [NameAt(msg, off)] + Strings(msg, off + 2 + U16(msg, off), n - 1)
  }

  /** How many of n walks, starting with answer number i, find their node. */
  function Found(env: Env, i: nat, n: nat): (k: nat)
    ensures k <= n && (k > 0 ==> i + k <= |env.walks|)
    decreases n
  {
    if n == 0 || WalkAnswer(env, i) == 0 then 0 else 1 + Found(env, i + 1, n - 1)
  }

  lemma {:induction false} FoundNonNull(env: Env, i: nat, n: nat)
    ensures forall j :: i <= j < i + Found(env, i, n) ==> env.walks[j] != 0
    decreases n
  {
    if Found(env, i, n) > 0 {
      FoundNonNull(env, i + 1, n - 1);
    }
  }

  function Qids(env: Env, nodes: seq<nat>): (q: seq<Qid>)
    ensures |q| == |nodes|
  {
    if |nodes| == 0 then [] else [env.qid(nodes[0])] + Qids(env, nodes[1..])
  }

  /** The filesystem's walk returns handles of its own, never the starting node and never one twice. */
  predicate Fresh(env: Env, start: nat) {
    && start !in env.walks
    && (forall a, b :: 0 <= a < b < |env.walks| && env.walks[a] != 0 ==> env.walks[a] != env.walks[b])
  }

  // ---------------------------------------------------------------- the element loop

  /** The element loop over names already read from the frame, the first of them number i. */
  function WalkList(j: WalkJob, names: seq<seq<byte>>, i: nat, node: nat, qids: seq<Qid>, log: Log): Walked
    decreases |names|
  {
    if |names| == 0 then if i == j.nw then Reached(node, qids, log) else BadFrame(Drop(j.cfg, node, j.start, log))
    else
      var next := WalkAnswer(j.env, i);
      var log' := Drop(j.cfg, node, j.start, Then(log, FsWalk(j.fid, node, names[0])));
      if next == 0 then Stopped(qids, log') else WalkList(j, names[1..], i + 1, next, qids + [j.env.qid(next)], log')
  }

  /** Reading each name from the frame when its turn comes makes no difference. */
  lemma {:induction false} WalkReads(j: WalkJob, i: nat, off: nat, node: nat, qids: seq<Qid>, log: Log)
    requires i <= j.nw
    ensures WalkNames(j, i, off, node, qids, log) == WalkList(j, Strings(j.msg, off, j.nw - i), i, node, qids, log)
    decreases j.nw - i
  {
    if i < j.nw && !Cut(j.msg, off) {
      var name, off', next := NameAt(j.msg, off), off + 2 + U16(j.msg, off), WalkAnswer(j.env, i);
      var names := Strings(j.msg, off, j.nw - i);
      assert names[0] == name && names[1..] == Strings(j.msg, off', j.nw - i - 1);
      if next != 0 {
        WalkReads(j, i + 1, off', next, qids + [j.env.qid(next)],
                  Drop(j.cfg, node, j.start, Then(log, FsWalk(j.fid, node, name))));
      }
    }
  }

  /** How the loop ends: all found, a name missing, or a frame that ends too soon. */
  lemma {:induction false} ListEnds(j: WalkJob, names: seq<seq<byte>>, i: nat, node: nat, qids: seq<Qid>, log: Log)
    requires i + |names| <= j.nw && node == if i == 0 then j.start else WalkAnswer(j.env, i - 1)
    ensures var w, k := WalkList(j, names, i, node, qids, log), Found(j.env, i, |names|);
            && (w.Reached? <==> i + k == j.nw) && (w.Stopped? <==> k < |names|)
            && (w.Reached? ==> w.node == if j.nw == 0 then j.start else WalkAnswer(j.env, j.nw - 1))
    decreases |names|
  {
    if |names| > 0 && WalkAnswer(j.env, i) != 0 {
      var next := WalkAnswer(j.env, i);
      ListEnds(j, names[1..], i + 1, next, qids + [j.env.qid(next)],
               Drop(j.cfg, node, j.start, Then(log, FsWalk(j.fid, node, names[0]))));
    }
  }

  lemma QidsJoin(all: seq<Qid>, front: seq<Qid>, q: Qid, back: seq<Qid>, found: seq<Qid>)
    requires all == front + [q] + back && found == [q] + back
    ensures all == front + found
  {
  }

  lemma QidsCons(env: Env, i: nat, k: nat)
    requires 0 < k && i + k <= |env.walks|
    ensures Qids(env, env.walks[i..i + k]) == [env.qid(env.walks[i])] + Qids(env, env.walks[i + 1..i + k])
  {
    assert env.walks[i..i + k][1..] == env.walks[i + 1..i + k];
  }

  lemma {:induction false} ListQids(j: WalkJob, names: seq<seq<byte>>, i: nat, node: nat, qids: seq<Qid>, log: Log)
    requires i <= |j.env.walks|
    ensures var w, k := WalkList(j, names, i, node, qids, log), Found(j.env, i, |names|);
            !w.BadFrame? ==> w.qids == qids + Qids(j.env, j.env.walks[i..i + k])
    decreases |names|
  {
    var k := Found(j.env, i, |names|);
    if k > 0 {
      var next, rest := WalkAnswer(j.env, i), names[1..];
      var log' := Drop(j.cfg, node, j.start, Then(log, FsWalk(j.fid, node, names[0])));
      var w := WalkList(j, rest, i + 1, next, qids + [j.env.qid(next)], log');
      ListQids(j, rest, i + 1, next, qids + [j.env.qid(next)], log');
      QidsCons(j.env, i, k);
      if !w.BadFrame? {
        QidsJoin(w.qids, qids, j.env.qid(next), Qids(j.env, j.env.walks[i + 1..i + k]),
                 Qids(j.env, j.env.walks[i..i + k]));
      }
    }
  }

  /** How many of n names are handed over: those found and, if there is one, the first that is not. */
  function Asked(env: Env, i: nat, n: nat): (k: nat)
    ensures k <= n
  {
    var k := Found(env, i, n);
    if k < n then k + 1 else k
  }

  lemma ConsPrefix(names: seq<seq<byte>>, t: nat)
    requires t < |names|
    ensures names[..t + 1] == [names[0]] + names[1..][..t]
  {
  }

  lemma {:induction false} ListNames(j: WalkJob, names: seq<seq<byte>>, i: nat, node: nat, qids: seq<Qid>, log: Log)
    ensures NamesOf(WalkList(j, names, i, node, qids, log).log)
            == Append(NamesOf(log), names[..Asked(j.env, i, |names|)])
    decreases |names|
  {
    if |names| > 0 {
      var next, rest := WalkAnswer(j.env, i), names[1..];
      var log' := Drop(j.cfg, node, j.start, Then(log, FsWalk(j.fid, node, names[0])));
      assert NamesOf(log') == Then(NamesOf(log), names[0]);
      var t := if next == 0 then 0 else Asked(j.env, i + 1, |rest|);
      if next != 0 {
        ListNames(j, rest, i + 1, next, qids + [j.env.qid(next)], log');
      }
      ConsPrefix(names, t);
      AppendCons(NamesOf(log), names[0], rest[..t]);
    }
  }

  function Before(i: nat): nat { if i == 0 then 0 else i - 1 }

  /** `t` and then the nodes given back when k more are found after `node`; a `full` walk keeps the last. */
  function Released(t: Trace<nat>, walks: seq<nat>, start: nat, i: nat, k: nat, full: bool, node: nat): Trace<nat>
    requires i + k <= |walks|
    decreases k
  {
    var t' := if (k == 0 && full) || node == start then t else Then(t, node);
    if k == 0 then t' else Released(t', walks, start, i + 1, k - 1, full, walks[i])
  }

  lemma {:induction false} ListReleases(j: WalkJob, names: seq<seq<byte>>, i: nat, node: nat, qids: seq<Qid>, log: Log)
    requires i + |names| <= j.nw && i <= |j.env.walks| && j.cfg.canClunk
    ensures var k := Found(j.env, i, |names|);
            ClunksOf(WalkList(j, names, i, node, qids, log).log)
            == Released(ClunksOf(log), j.env.walks, j.start, i, k, k == j.nw - i, node)
    decreases |names|
  {
    if |names| > 0 && WalkAnswer(j.env, i) != 0 {
      var next := j.env.walks[i];
      ListReleases(j, names[1..], i + 1, next, qids + [j.env.qid(next)],
                   Drop(j.cfg, node, j.start, Then(log, FsWalk(j.fid, node, names[0]))));
    }
  }

  /** With fresh handles, what is given back is a stretch of what was found: all of it, or all but the
      last node when the walk gets through. */
  lemma {:induction false} ReleasedMeans(t: Trace<nat>, walks: seq<nat>, start: nat, i: nat, k: nat, full: bool)
    requires i + k <= |walks| && start !in walks
    ensures Released(t, walks, start, i, k, full, if i == 0 then start else walks[i - 1])
            == Append(t, walks[Before(i)..if full then Before(i + k) else i + k])
    decreases k
  {
    var hi := if full then Before(i + k) else i + k;
    var t' := if i == 0 || (k == 0 && full) then t else Then(t, walks[i - 1]);
    assert t' != t ==> walks[i - 1..hi][1..] == walks[i..hi];
    if k > 0 {
      ReleasedMeans(t', walks, start, i + 1, k - 1, full);
    }
  }

  // ---------------------------------------------------------------- one Twalk

  /** A Twalk that gets as far as its element loop: a bound fid that is not open, at most sixteen names. */
  predicate Walkable(x: Session, msg: seq<byte>) {
    && |msg| >= 17 && U16(msg, 15) <= MAX_WELEM
    && var i := FindFid(x.fids, U32(msg, 7)); i < |x.fids| && !x.fids[i].isOpen
  }

  function Job(cfg: Config, x: Session, msg: seq<byte>, env: Env): WalkJob
    requires Walkable(x, msg)
  {
    WalkJob(cfg, msg, env, U32(msg, 7), x.fids[FindFid(x.fids, U32(msg, 7))].node, U16(msg, 15))
  }

  /** The log when the walk gets under way. */
  function Begun(x: Session, msg: seq<byte>): Log
    requires |msg| >= 17
  {
    Then(x.log, Walks(U32(msg, 7)))
  }

  /** The nodes the Twalk finds. */
  function NodesFound(msg: seq<byte>, env: Env): seq<nat>
    requires |msg| >= 17
  {
    env.walks[..Found(env, 0, |Strings(msg, 17, U16(msg, 15))|)]
  }

  /** Every name was found and there is room for newfid. */
  predicate Binds(x: Session, msg: seq<byte>, env: Env)
    requires |msg| >= 17
  {
    |NodesFound(msg, env)| == U16(msg, 15) && AllocAt(x.fids, U32(msg, 11)) < |x.fids|
  }

  /** Beyond the loop a Twalk logs at most the binding of newfid or the return of the last node. */
  lemma TwalkLog(cfg: Config, x: Session, msg: seq<byte>, env: Env)
    requires Walkable(x, msg)
    ensures var j := Job(cfg, x, msg, env);
            var w, log := WalkNames(j, 0, 17, j.start, [], Begun(x, msg)), HandleTwalk(cfg, x, msg, env).x.log;
            log == if !w.Reached? then w.log
                   else if AllocAt(x.fids, U32(msg, 11)) < |x.fids| then Then(w.log, Bound(U32(msg, 11)))
                   else Drop(cfg, w.node, j.start, w.log)
  {
  }

  /** The loop of a Twalk, over the names its frame holds. */
  function Loop(cfg: Config, x: Session, msg: seq<byte>, env: Env): Walked
    requires Walkable(x, msg)
  {
    var j := Job(cfg, x, msg, env);
    WalkList(j, Strings(msg, 17, j.nw), 0, j.start, [], Begun(x, msg))
  }

  lemma LoopIs(cfg: Config, x: Session, msg: seq<byte>, env: Env)
    requires Walkable(x, msg)
    ensures var j := Job(cfg, x, msg, env); WalkNames(j, 0, 17, j.start, [], Begun(x, msg)) == Loop(cfg, x, msg, env)
  {
    var j := Job(cfg, x, msg, env);
    WalkReads(j, 0, 17, j.start, [], Begun(x, msg));
  }

  /** The names handed to the filesystem are the frame's, up to and including the first not found. */
  lemma TwalkHandsNames(cfg: Config, x: Session, msg: seq<byte>, env: Env)
    requires Walkable(x, msg)
    ensures var names, k := Strings(msg, 17, U16(msg, 15)), |NodesFound(msg, env)|;
            NamesOf(HandleTwalk(cfg, x, msg, env).x.log)
            == Append(NamesOf(x.log), names[..if k < |names| then k + 1 else k])
  {
    var j := Job(cfg, x, msg, env);
    TwalkLog(cfg, x, msg, env);
    LoopIs(cfg, x, msg, env);
    ListNames(j, Strings(msg, 17, j.nw), 0, j.start, [], Begun(x, msg));
    var w, log := Loop(cfg, x, msg, env), HandleTwalk(cfg, x, msg, env).x.log;
    assert NamesOf(log) == NamesOf(w.log);
  }

  /** What the loop alone gives back: every node found, except the last one when it gets through. */
  lemma LoopGivesBack(j: WalkJob, names: seq<seq<byte>>, log: Log, n: nat)
    requires j.cfg.canClunk && j.start !in j.env.walks && |names| <= j.nw && n == Found(j.env, 0, |names|)
    ensures ClunksOf(WalkList(j, names, 0, j.start, [], log).log)
            == Append(ClunksOf(log), j.env.walks[..if n == j.nw then Before(n) else n])
  {
    ListReleases(j, names, 0, j.start, [], log);
    ReleasedMeans(ClunksOf(log), j.env.walks, j.start, 0, n, n == j.nw);
    var hi := if n == j.nw then Before(n) else n;
    assert j.env.walks[0..hi] == j.env.walks[..hi];
  }

  lemma LastIsAppended(t: Trace<nat>, nodes: seq<nat>)
    requires |nodes| > 0
    ensures Append(t, nodes) == Then(Append(t, nodes[..|nodes| - 1]), nodes[|nodes| - 1])
  {
    var n := |nodes| - 1;
    assert nodes[..n] + [nodes[n]] == nodes;
    AppendOne(t, nodes[..n], nodes[n]);
  }

  lemma NodesDistinct(msg: seq<byte>, env: Env, start: nat)
    requires |msg| >= 17 && Fresh(env, start)
    ensures var nodes := NodesFound(msg, env);
            (forall a, b :: 0 <= a < b < |nodes| ==> nodes[a] != nodes[b]) && start !in nodes
  {
    FoundNonNull(env, 0, |Strings(msg, 17, U16(msg, 15))|);
  }

  /** Over a filesystem that has a clunk and hands out handles of its own, every node found is clunked
      exactly once, except the one newfid keeps; the start never is. */
  lemma TwalkGivesBack(cfg: Config, x: Session, msg: seq<byte>, env: Env)
    requires Walkable(x, msg) && cfg.canClunk && Fresh(env, Job(cfg, x, msg, env).start)
    ensures var nodes, start := NodesFound(msg, env), Job(cfg, x, msg, env).start;
            && ClunksOf(HandleTwalk(cfg, x, msg, env).x.log)
               == Append(ClunksOf(x.log), if Binds(x, msg, env) then nodes[..Before(|nodes|)] else nodes)
            && (forall a, b :: 0 <= a < b < |nodes| ==> nodes[a] != nodes[b]) && start !in nodes
  {
    var j, nodes := Job(cfg, x, msg, env), NodesFound(msg, env);
    var n, t := |nodes|, ClunksOf(x.log);
    NodesDistinct(msg, env, j.start);
    TwalkLog(cfg, x, msg, env);
    LoopIs(cfg, x, msg, env);
    var names := Strings(msg, 17, j.nw);
    ListEnds(j, names, 0, j.start, [], Begun(x, msg));
    LoopGivesBack(j, names, Begun(x, msg), n);
    assert env.walks[..n] == nodes && env.walks[..Before(n)] == nodes[..Before(n)];
    if n == j.nw > 0 {
      LastIsAppended(t, nodes);
    }
  }

  /** The Rwalk carries exactly the qids of the walked prefix; anything else is an error. */
  lemma TwalkReplies(cfg: Config, x: Session, msg: seq<byte>, env: Env)
    requires Walkable(x, msg)
    ensures var d, nodes := HandleTwalk(cfg, x, msg, env), NodesFound(msg, env);
            if Binds(x, msg, env) || 0 < |nodes| < |Strings(msg, 17, U16(msg, 15))|
            then d.body == Rwalk(Qids(env, nodes)) else d.body.Rerror?
  {
    var j, nodes := Job(cfg, x, msg, env), NodesFound(msg, env);
    LoopIs(cfg, x, msg, env);
    ListEnds(j, Strings(msg, 17, j.nw), 0, j.start, [], Begun(x, msg));
    ListQids(j, Strings(msg, 17, j.nw), 0, j.start, [], Begun(x, msg));
    assert env.walks[0..|nodes|] == nodes && [] + Qids(env, nodes) == Qids(env, nodes);
  }

  /** newfid stands at the last node exactly when the whole path was walked and allocation succeeded;
      otherwise the table is untouched. */
  lemma TwalkBinds(cfg: Config, x: Session, msg: seq<byte>, env: Env)
    requires Walkable(x, msg)
    ensures var fids', nodes := HandleTwalk(cfg, x, msg, env).x.fids, NodesFound(msg, env);
            var at := AllocAt(x.fids, U32(msg, 11));
            if Binds(x, msg, env)
            then fids' == x.fids[at := fids'[at]] && fids'[at].inUse && fids'[at].fid == U32(msg, 11)
                 && fids'[at].node == if |nodes| == 0 then Job(cfg, x, msg, env).start else nodes[|nodes| - 1]
            else fids' == x.fids
  {
    var j := Job(cfg, x, msg, env);
    LoopIs(cfg, x, msg, env);
    ListEnds(j, Strings(msg, 17, j.nw), 0, j.start, [], Begun(x, msg));
  }
}
