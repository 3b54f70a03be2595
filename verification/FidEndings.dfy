/** How fids end: by a Tclunk, by the reset an accepted Tversion performs, and by cleanup; and that each node
    is given back once. */
module FidEndings {
  import opened Bytes
  import opened Traces
  import opened Session
  import opened SessionInvariant
  import opened Dispatch
  import opened ServerInvariant
  import opened Outcomes
  import opened FileAccess
  import opened ReadOutcomes
  import opened WalkBalance

  // ---------------------------------------------------------------- Tclunk

  /** What the filesystem is told when an entry ends. */
  function GivenBack(cfg: Config, log: Log, node: nat): Log {
    if cfg.canClunk && node != 0 then Then(log, FsClunk(node)) else log
  }

  lemma ClunkDone(cfg: Config, x: Session, fid: nat)
    requires Distinct(x.fids) && FindFid(x.fids, fid) < |x.fids|
    ensures var y := ClunkFid(cfg, x, fid);
            Unbound(x, y, fid) && y.log == GivenBack(cfg, x.log, x.fids[FindFid(x.fids, fid)].node)
  {
    FreeUnbinds(x.(log := GivenBack(cfg, x.log, x.fids[FindFid(x.fids, fid)].node)), fid);
  }

  /** A Tclunk always gets its Rclunk. It unbinds the fid, gives its node back once, answers the reads parked
      on it with no bytes first, and touches no other entry or slot. */
  lemma ClunkOutcome(cfg: Config, s: State, msg: seq<byte>, env: Env, m: seq<byte>)
    requires ConfigOk(cfg) && HeaderOk(msg) && msg[4] == TCLUNK && m == Seen(msg, env) && Distinct(s.x.fids)
    ensures var s', fid := Process(cfg, s, msg, env), U32(m, 7); var i := FindFid(s.x.fids, fid);
            if i == |s.x.fids| then s'.x == s.x && s'.pend == s.pend && AnsweredBy(s, s', msg, Rclunk)
            else
              && Unbound(s.x, s'.x, fid) && s'.x.log == GivenBack(cfg, s.x.log, s.x.fids[i].node)
              && s'.sent == Then(Append(s.sent, CutShort(s.pend, OfFid(fid), 0)),
                                 Reply(|s.reqs|, U16(msg, 5), Rclunk))
              && |s'.pend| == |s.pend|
              && forall k :: 0 <= k < |s.pend| ==>
                   s'.pend[k] == if s.pend[k].fid == fid then s.pend[k].(inUse := false) else s.pend[k]
  {
    var r, fid := Receive(s, msg), U32(m, 7);
    Dispatched(cfg, s, msg, env, m);
    if FindFid(s.x.fids, fid) < |s.x.fids| {
      CancelKeeps(cfg, r, OfFid(fid), 0);
      CancelAnswersAll(cfg, r, OfFid(fid), 0);
      ClunkDone(cfg, s.x, fid);
      ClunkHandled(cfg, r, m, fid);
    }
  }

  lemma ClunkHandled(cfg: Config, r: State, m: seq<byte>, fid: nat)
    requires ConfigOk(cfg) && |m| >= 11 && |r.reqs| > 0 && fid == U32(m, 7) && FindFid(r.x.fids, fid) < |r.x.fids|
    ensures var s', c := HandleTclunk(cfg, r, m), Cancel(cfg, r, OfFid(fid));
            && s'.x == ClunkFid(cfg, r.x, fid) && s'.pend == c.pend
            && s'.sent == Then(c.sent, Reply(|r.reqs| - 1, U16(m, 5), Rclunk))
  {
    CancelKeeps(cfg, r, OfFid(fid), 0);
  }

  /** A Tflush answers every read parked under the flushed tag, with no bytes, and then itself; it touches
      nothing else. */
  lemma FlushOutcome(cfg: Config, s: State, msg: seq<byte>, env: Env, m: seq<byte>)
    requires ConfigOk(cfg) && HeaderOk(msg) && msg[4] == TFLUSH && m == Seen(msg, env)
    ensures var s', old_ := Process(cfg, s, msg, env), U16(m, 7);
            && s'.x == s.x && |s'.pend| == |s.pend|
            && s'.sent == Then(Append(s.sent, CutShort(s.pend, OfTag(old_), 0)), Reply(|s.reqs|, U16(msg, 5), Rflush))
            && forall k :: 0 <= k < |s.pend| ==>
                 s'.pend[k] == if s.pend[k].tag == old_ then s.pend[k].(inUse := false) else s.pend[k]
  {
    var r := Receive(s, msg);
    Dispatched(cfg, s, msg, env, m);
    CancelKeeps(cfg, r, OfTag(U16(m, 7)), 0);
    CancelAnswersAll(cfg, r, OfTag(U16(m, 7)), 0);
  }

  // ---------------------------------------------------------------- Tversion

  /** m is the least of the offer, the server's limit and, if there is one, the transport's. */
  predicate IsLeast(m: nat, offered: nat, limit: nat, mtu: int) {
    && m <= offered && m <= limit && (mtu > 0 ==> m <= mtu % MOD32)
    && (m == offered || m == limit || (mtu > 0 && m == mtu % MOD32))
  }

  /** The nodes of the entries in use, in table order. */
  function Nodes(fids: seq<FidEntry>, withAuth: bool): seq<nat> {
    if |fids| == 0 then []
    else
      var e, rest := fids[|fids| - 1], Nodes(fids[..|fids| - 1], withAuth);
      if e.inUse && e.node != 0 && (withAuth || !e.isAuth) then rest + [e.node] else rest
  }

  lemma {:induction false} ResetGivesBack(cfg: Config, fids: seq<FidEntry>, n: nat, log: Log)
    requires n <= |fids| && cfg.canClunk
    ensures ClunksOf(ResetClunks(cfg, fids, n, log)) == Append(ClunksOf(log), Nodes(fids[..n], false))
  {
    if n > 0 {
      ResetGivesBack(cfg, fids, n - 1, log);
      assert fids[..n][..n - 1] == fids[..n - 1];
      AppendOne(ClunksOf(log), Nodes(fids[..n - 1], false), fids[n - 1].node);
    }
  }

  lemma {:induction false} ResetKeeps(cfg: Config, fids: seq<FidEntry>, n: nat, log: Log)
    requires n <= |fids| && !cfg.canClunk
    ensures ResetClunks(cfg, fids, n, log) == log
  {
    if n > 0 {
      ResetKeeps(cfg, fids, n - 1, log);
    }
  }

  /** A whole Tversion that offers this protocol. */
  predicate Speaks(m: seq<byte>) {
    && |m| >= 13 && |m| >= 13 + U16(m, 11) && U16(m, 11) >= 6
    && m[13..19] == [57, 80, 50, 48, 48, 48]
  }

  /** Nothing is bound, interned, authenticating or parked. */
  predicate Empty(s: State) {
    && (forall k :: 0 <= k < |s.x.fids| ==> !s.x.fids[k].inUse)
    && (forall k :: 0 <= k < |s.x.names| ==> s.x.names[k].refs == 0)
    && (forall k :: 0 <= k < |s.x.auths| ==> !s.x.auths[k].used)
    && (forall k :: 0 <= k < |s.pend| ==> !s.pend[k].inUse)
  }

  lemma VersionDispatched(cfg: Config, s: State, msg: seq<byte>, env: Env)
    requires HeaderOk(msg) && msg[4] == TVERSION
    ensures Process(cfg, s, msg, env) == HandleTversion(cfg, Receive(s, msg), msg, env)
  {
    Dispatched(cfg, s, msg, env, msg);
  }

  /** A Tversion in the server's protocol empties every table, gives each node back once, and settles on the
      least size on offer; any other changes nothing. */
  lemma VersionOutcome(cfg: Config, s: State, msg: seq<byte>, env: Env)
    requires ConfigOk(cfg) && HeaderOk(msg) && msg[4] == TVERSION
    ensures var s' := Process(cfg, s, msg, env);
            if Speaks(msg) then
              && IsLeast(s'.x.msize, U32(msg, 7), cfg.maxMessage, env.mtu) && Empty(s')
              && AnsweredBy(s, s', msg, Rversion(s'.x.msize, true))
              && ClunksOf(s'.x.log)
                 == if cfg.canClunk then Append(ClunksOf(s.x.log), Nodes(s.x.fids, false)) else ClunksOf(s.x.log)
            else
              && s'.x == s.x && s'.pend == s.pend
              && if |msg| < 13 || |msg| < 13 + U16(msg, 11) then AnsweredBy(s, s', msg, Rerror(BadTversion))
                 else exists n: nat {:trigger IsLeast(n, U32(msg, 7), cfg.maxMessage, env.mtu)} ::
                     IsLeast(n, U32(msg, 7), cfg.maxMessage, env.mtu) && AnsweredBy(s, s', msg, Rversion(n, false))
  {
    VersionDispatched(cfg, s, msg, env);
    if |msg| >= 13 {
      LeastIs(cfg, U32(msg, 7), env.mtu);
      if Speaks(msg) {
        ResetDone(cfg, s.x, NegotiatedMsize(cfg, U32(msg, 7), env.mtu));
      } else if |msg| >= 13 + U16(msg, 11) {
        assert Negotiate(cfg, msg, env) == Refused(Rversion(NegotiatedMsize(cfg, U32(msg, 7), env.mtu), false));
      }
    }
  }

  lemma LeastIs(cfg: Config, offered: nat, mtu: int)
    ensures IsLeast(NegotiatedMsize(cfg, offered, mtu), offered, cfg.maxMessage, mtu)
  {
  }

  lemma ResetDone(cfg: Config, x: Session, msize: nat)
    ensures ClunksOf(ResetSession(cfg, x, msize).log)
            == if cfg.canClunk then Append(ClunksOf(x.log), Nodes(x.fids, false)) else ClunksOf(x.log)
  {
    var log := Then(x.log, Reset);
    assert x.fids[..|x.fids|] == x.fids && ClunksOf(log) == ClunksOf(x.log);
    if cfg.canClunk {
      ResetGivesBack(cfg, x.fids, |x.fids|, log);
    } else {
      ResetKeeps(cfg, x.fids, |x.fids|, log);
    }
  }

  // ---------------------------------------------------------------- cleanup

  lemma {:induction false} CleanupGivesBack(cfg: Config, x: Session, n: nat)
    requires n <= |x.fids|
    ensures var y := CleanupFids(cfg, x, n);
            && (forall k :: 0 <= k < n ==> !y.fids[k].inUse)
            && ClunksOf(y.log)
               == if cfg.canClunk then Append(ClunksOf(x.log), Nodes(x.fids[..n], true)) else ClunksOf(x.log)
  {
    if n > 0 {
      CleanupGivesBack(cfg, x, n - 1);
      assert x.fids[..n][..n - 1] == x.fids[..n - 1];
      AppendOne(ClunksOf(x.log), Nodes(x.fids[..n - 1], true), x.fids[n - 1].node);
    }
  }

  /** Cleanup leaves no fid bound and no read parked, and gives the node of each fid back once. */
  lemma CleanupOutcome(cfg: Config, s: State)
    ensures var s' := Cleanup(cfg, s);
            && (forall k :: 0 <= k < |s'.x.fids| ==> !s'.x.fids[k].inUse)
            && (forall k :: 0 <= k < |s'.pend| ==> !s'.pend[k].inUse) && s'.sent == s.sent
            && ClunksOf(s'.x.log)
               == if cfg.canClunk then Append(ClunksOf(s.x.log), Nodes(s.x.fids, true)) else ClunksOf(s.x.log)
  {
    CleanupGivesBack(cfg, s.x, |s.x.fids|);
    assert s.x.fids[..|s.x.fids|] == s.x.fids;
  }
}
