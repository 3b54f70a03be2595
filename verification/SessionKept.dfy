/** Every handler keeps the session invariant, whatever the frame and whatever the outside answers. */
module SessionKept {
  import opened Bytes
  import opened PathNames
  import opened Traces
  import opened Session
  import opened SessionInvariant
  import opened Dispatch

  // ---------------------------------------------------------------- Tversion and cleanup

  lemma {:induction false} ResetClunksQuiet(cfg: Config, fids: seq<FidEntry>, n: nat, log: Log)
    requires n <= |fids| && LogOk(log)
    ensures LogOk(ResetClunks(cfg, fids, n, log)) && Replay(ResetClunks(cfg, fids, n, log)) == Replay(log)
  {
    if n > 0 {
      ResetClunksQuiet(cfg, fids, n - 1, log);
    }
  }

  lemma ResetKeeps(cfg: Config, x: Session, msize: nat)
    requires SessionOk(x)
    ensures SessionOk(ResetSession(cfg, x, msize))
  {
    var y := ResetSession(cfg, x, msize);
    forall i: nat ensures Holders(y.fids, i) == 0 && AuthHolders(y.fids, i) == 0 {
      NoHolders(y.fids, i);
    }
    ResetClunksQuiet(cfg, x.fids, |x.fids|, Then(x.log, Reset));
  }

  lemma {:induction false} CleanupFidsKeeps(cfg: Config, x: Session, n: nat)
    requires SessionOk(x) && n <= |x.fids|
    ensures SessionOk(CleanupFids(cfg, x, n))
    ensures forall k :: 0 <= k < n ==> !CleanupFids(cfg, x, n).fids[k].inUse
  {
    if n > 0 {
      CleanupFidsKeeps(cfg, x, n - 1);
      var y := CleanupFids(cfg, x, n - 1);
      var e := y.fids[n - 1];
      if e.inUse {
        EntryReleased(if e.node != 0 && cfg.canClunk then y.(log := Then(y.log, FsClunk(e.node))) else y, n - 1);
      }
    }
  }

  // ---------------------------------------------------------------- Tattach

  /** Walking one element from a fid that is not open, and giving back the node before it. */
  lemma ElementQuiet(cfg: Config, fid: nat, node: nat, start: nat, name: seq<byte>, log: Log)
    requires LogOk(log) && fid !in Replay(log).modes
    ensures var log' := Drop(cfg, node, start, Then(log, FsWalk(fid, node, name)));
            LogOk(log') && Replay(log') == Replay(log)
  {
    var walked := Then(log, FsWalk(fid, node, name));
    assert LogOk(walked) && Replay(walked) == Replay(log);
  }

  lemma {:induction false} WalkAnameQuiet(cfg: Config, env: Env, fid: nat, names: seq<seq<byte>>, k: nat, node: nat,
                                          log: Log)
    requires LogOk(log) && fid !in Replay(log).modes
    ensures var w := WalkAname(cfg, env, fid, names, k, node, log);
            LogOk(w.log) && Replay(w.log) == Replay(log)
    decreases |names|
  {
    if |names| > 0 {
      ElementQuiet(cfg, fid, node, env.root, names[0], log);
      if WalkAnswer(env, k) != 0 {
        var log' := Drop(cfg, node, env.root, Then(log, FsWalk(fid, node, names[0])));
        WalkAnameQuiet(cfg, env, fid, names[1..], k + 1, WalkAnswer(env, k), log');
      }
    }
  }

  /** Only an afid whose handshake succeeded makes an attach authentic, and then with its identity. */
  lemma AuthenticIsVerified(cfg: Config, x: Session, afid: nat, uname: seq<byte>)
    requires SessionOk(x)
    ensures var a := AttachAuthority(cfg, x, afid, uname);
            a.Authentic? ==> a.id in Replay(x.log).verified && CStr(Clip(a.id)) == a.id
                             && (|uname| > 0 ==> uname == a.id)
  {
    var a := AttachAuthority(cfg, x, afid, uname);
    if a.Authentic? {
      CStrOfClean(a.id);
    }
  }

  lemma AttachRootKeeps(x: Session, fid: nat, k: nat, uname: seq<byte>, authentic: bool, root: nat)
    requires SessionOk(x) && k < |x.fids| && k == AllocAt(x.fids, fid)
    requires authentic ==> IdOk(Replay(x.log), CStr(Clip(uname)))
    ensures var y := AttachRoot(x, fid, k, uname, authentic, root);
            SessionOk(y) && fid !in Replay(y.log).modes
  {
    FidAllocated(x, fid, k);
    var x1 := AllocFid(x, fid, k);
    NameTaken(x1, k, uname, authentic);
    var n := Intern(x1.names, uname);
    var e := x1.fids[k].(unameIdx := n.idx, authenticated := authentic);
    EntryTouched(SetFid(x1, k, e).(names := n.names), k, e.(node := root));
    assert x1.fids[k := e][k := e.(node := root)] == x1.fids[k := e.(node := root)];
  }

  lemma DescendKeeps(cfg: Config, x: Session, fid: nat, k: nat, aname: seq<byte>, env: Env)
    requires SessionOk(x) && k < |x.fids| && fid !in Replay(x.log).modes
    ensures SessionOk(Descend(cfg, x, fid, k, aname, env).x)
  {
    if env.root == 0 {
      FidFreed(x, fid);
    } else {
      var w := WalkAname(cfg, env, fid, Components(aname), 0, env.root, x.log);
      WalkAnameQuiet(cfg, env, fid, Components(aname), 0, env.root, x.log);
      var x1 := x.(log := w.log);
      if w.node == 0 {
        FidFreed(x1, fid);
      } else {
        EntryTouched(x1, k, x1.fids[k].(node := w.node));
      }
    }
  }

  lemma AttachKeeps(cfg: Config, x: Session, msg: seq<byte>, env: Env)
    requires SessionOk(x) && |msg| >= 15
    ensures SessionOk(HandleTattach(cfg, x, msg, env).x)
  {
    var fid, afid, received := U32(msg, 7), U32(msg, 11), AttachUname(msg, env);
    var authority := AttachAuthority(cfg, x, afid, received);
    var k := AllocAt(x.fids, fid);
    if !authority.Denied? && k < |x.fids| {
      AuthenticIsVerified(cfg, x, afid, received);
      var uname := if authority.Authentic? then authority.id else received;
      AttachRootKeeps(x, fid, k, uname, authority.Authentic?, env.root);
      var x1 := AttachRoot(x, fid, k, uname, authority.Authentic?, env.root);
      DescendKeeps(cfg, x1, fid, k, AttachAname(msg, |uname|), env);
    }
  }

  // ---------------------------------------------------------------- Twalk

  lemma {:induction false} WalkNamesQuiet(j: WalkJob, i: nat, off: nat, node: nat, qids: seq<Qid>, log: Log)
    requires i <= j.nw && LogOk(log) && j.fid !in Replay(log).modes
    ensures var w := WalkNames(j, i, off, node, qids, log);
            LogOk(w.log) && Replay(w.log) == Replay(log)
    decreases j.nw - i
  {
    if i < j.nw && !Cut(j.msg, off) && WalkAnswer(j.env, i) != 0 {
      var next := WalkAnswer(j.env, i);
      WalkNamesQuiet(j, i + 1, off + 2 + U16(j.msg, off), next, qids + [j.env.qid(next)],
                     Drop(j.cfg, node, j.start, Then(log, FsWalk(j.fid, node, NameAt(j.msg, off)))));
    }
  }

  /** Cloning or walking a fid shares its name with one more holder and inherits what was proved of it. */
  lemma InheritKeeps(x: Session, i: nat, k: nat, node: nat)
    requires SessionOk(x) && i < |x.fids| && x.fids[i].inUse && k < |x.fids| && k != i
    requires x.fids[k].inUse && x.fids[k].unameIdx == POOL_NONE && !x.fids[k].isAuth
    ensures SessionOk(Inherit(x, x.fids[i], k, node))
  {
    var from := x.fids[i];
    var e := x.fids[k].(node := node, authenticated := from.authenticated, unameIdx := from.unameIdx);
    var y := Inherit(x, from, k, node);
    assert y.fids == x.fids[k := e];
    if from.unameIdx != POOL_NONE {
      HoldersSlack(x.fids, k, from.unameIdx);
    }
    UnamesStep(x.fids, x.names, k, e, y.names);
    AuthsStep(x.fids, x.auths, k, e, x.auths);
    var h := Replay(x.log);
    assert EntryIdOk(x.names, h, from);
    forall j | 0 <= j < |y.fids| ensures EntryIdOk(y.names, h, y.fids[j]) {
      assert EntryIdOk(x.names, h, x.fids[j]);
    }
  }

  lemma BindKeeps(x: Session, i: nat, newfid: nat, k: nat, node: nat)
    requires SessionOk(x) && i < |x.fids| && x.fids[i].inUse && k < |x.fids| && k == AllocAt(x.fids, newfid)
    ensures SessionOk(BindWalked(x, x.fids[i], newfid, k, node))
  {
    FidAllocated(x, newfid, k);
    InheritKeeps(AllocFid(x, newfid, k), i, k, node);
  }

  lemma WalkKeeps(cfg: Config, x: Session, msg: seq<byte>, env: Env)
    requires SessionOk(x) && |msg| >= 17
    ensures SessionOk(HandleTwalk(cfg, x, msg, env).x)
  {
    var fid, newfid, nw := U32(msg, 7), U32(msg, 11), U16(msg, 15);
    var i := FindFid(x.fids, fid);
    if i < |x.fids| && !x.fids[i].isOpen && nw <= MAX_WELEM {
      var e := x.fids[i];
      assert EntryOpenOk(Replay(x.log), e);
      var j, begun := WalkJob(cfg, msg, env, fid, e.node, nw), Then(x.log, Walks(fid));
      WalkNamesQuiet(j, 0, 17, e.node, [], begun);
      var w := WalkNames(j, 0, 17, e.node, [], begun);
      var x1 := x.(log := w.log);
      if w.Reached? {
        var k := AllocAt(x.fids, newfid);
        if k < |x.fids| {
          BindKeeps(x1, i, newfid, k, w.node);
        }
      }
    }
  }

  // ---------------------------------------------------------------- Topen, Tcreate, Tremove

  lemma PermissionKeeps(cfg: Config, x: Session, k: nat, mode: nat, env: Env)
    requires SessionOk(x) && k < |x.fids| && x.fids[k].inUse
    ensures var y := CheckPermission(cfg, x, x.fids[k], mode, env).x;
            SessionOk(y) && Replay(y.log) == Replay(x.log) && y.fids == x.fids
  {
    IdentityShown(x, k);
  }

  lemma OpenKeeps(cfg: Config, x: Session, msg: seq<byte>, env: Env)
    requires SessionOk(x) && |msg| >= 12
    ensures SessionOk(HandleTopen(cfg, x, msg, env).x)
  {
    var i := FindFid(x.fids, U32(msg, 7));
    if i < |x.fids| && x.fids[i].node != 0 && !x.fids[i].isOpen {
      var e, mode := x.fids[i], msg[11];
      PermissionKeeps(cfg, x, i, mode, env);
      var x1 := CheckPermission(cfg, x, e, mode, env).x;
      EntryOpened(x1, i, e.(isOpen := true, openMode := mode, iounit := Iounit(cfg, x.msize, env.mtu)), mode);
    }
  }

  lemma CreateKeeps(cfg: Config, x: Session, msg: seq<byte>, env: Env)
    requires SessionOk(x)
    ensures SessionOk(HandleTcreate(cfg, x, msg, env).x)
  {
    if |msg| >= 13 && |msg| >= 13 + U16(msg, 11) + 5 {
      var fid, mode := U32(msg, 7), msg[17 + U16(msg, 11)];
      var i := FindFid(x.fids, fid);
      if i < |x.fids| && x.fids[i].node != 0 && cfg.canCreate {
        var e := x.fids[i];
        PermissionKeeps(cfg, x, i, OWRITE, env);
        IdentityShown(x, i);
        var x1 := CheckPermission(cfg, x, e, OWRITE, env).x;
        var x2 := x1.(log := Then(x1.log, FsCreate(fid, FidIdentity(x, e))));
        EntryOpened(x2, i, e.(node := env.created, iounit := 0, isOpen := true, openMode := mode), mode);
      }
    }
  }

  lemma RemoveKeeps(cfg: Config, x: Session, msg: seq<byte>, env: Env)
    requires SessionOk(x) && |msg| >= 11
    ensures SessionOk(HandleTremove(cfg, x, msg, env).x)
  {
    var i := FindFid(x.fids, U32(msg, 7));
    if i < |x.fids| && x.fids[i].node != 0 && cfg.canRemove {
      PermissionKeeps(cfg, x, i, OWRITE, env);
      FidFreed(CheckPermission(cfg, x, x.fids[i], OWRITE, env).x, U32(msg, 7));
    }
  }

  lemma ClunkKeeps(cfg: Config, x: Session, fid: nat)
    requires SessionOk(x)
    ensures SessionOk(ClunkFid(cfg, x, fid))
  {
    var i := FindFid(x.fids, fid);
    if i < |x.fids| {
      var node := x.fids[i].node;
      FidFreed(if cfg.canClunk && node != 0 then x.(log := Then(x.log, FsClunk(node))) else x, fid);
    }
  }

  // ---------------------------------------------------------------- Tauth and the auth fid

  lemma BeginAuthKeeps(x: Session, k: nat, a: nat, identity: seq<byte>, env: Env)
    requires SessionOk(x) && k < |x.fids| && a < |x.auths| && !x.auths[a].used
    requires x.fids[k].inUse && x.fids[k].unameIdx == POOL_NONE && x.fids[k].authIdx == POOL_NONE
    requires |identity| < NAME_SIZE && 0 !in identity
    ensures SessionOk(BeginAuth(x, k, a, identity, env))
  {
    var y := BeginAuth(x, k, a, identity, env);
    UnamesStep(x.fids, x.names, k, y.fids[k], x.names);
    AuthsStep(x.fids, x.auths, k, y.fids[k], y.auths);
    forall i | 0 <= i < |y.fids| ensures EntryIdOk(y.names, Replay(y.log), y.fids[i]) {
      assert EntryIdOk(x.names, Replay(x.log), x.fids[i]);
    }
  }

  lemma AuthKeeps(cfg: Config, x: Session, msg: seq<byte>, env: Env)
    requires SessionOk(x) && |msg| >= 11
    ensures SessionOk(HandleTauth(cfg, x, msg, env).x)
  {
    var afid, uname := U32(msg, 7), AuthUname(msg, env);
    var k := AllocAt(x.fids, afid);
    if cfg.auth && 0 < |uname| < NAME_SIZE && k < |x.fids| {
      FidAllocated(x, afid, k);
      var x1 := AllocFid(x, afid, k);
      var a := FreeAuth(x1.auths);
      if a == |x1.auths| {
        FidFreed(x1, afid);
      } else {
        BeginAuthKeeps(x1, k, a, CStr(uname), env);
      }
    }
  }

  lemma AuthReadKeeps(x: Session, k: nat, offset: nat, count: nat, env: Env)
    requires SessionOk(x) && k < |x.fids| && x.fids[k].inUse
    ensures SessionOk(AuthRead(x, x.fids[k], offset, count, env).x)
  {
    var e := x.fids[k];
    AuthsStep(x.fids, x.auths, k, e, AuthRead(x, e, offset, count, env).x.auths);
    assert x.fids[k := e] == x.fids;
  }

  /** The handshake's success is logged before anyone can be shown the identity. */
  lemma AcceptKeeps(x: Session, i: nat)
    requires SessionOk(x) && i < |x.fids| && x.fids[i].inUse && x.fids[i].isAuth
    ensures SessionOk(Accept(x, x.fids[i].authIdx))
  {
    var e := x.fids[i];
    var y := Accept(x, e.authIdx);
    AuthsStep(x.fids, x.auths, i, e, y.auths);
    assert x.fids[i := e] == x.fids;
    forall k | 0 <= k < |x.fids| ensures EntryIdOk(x.names, Replay(y.log), x.fids[k]) {
      assert EntryIdOk(x.names, Replay(x.log), x.fids[k]);
    }
    forall k | 0 <= k < |x.fids| ensures EntryOpenOk(Replay(y.log), x.fids[k]) {
      assert EntryOpenOk(Replay(x.log), x.fids[k]);
    }
  }

  lemma NameGivenUp(x: Session, i: nat)
    requires SessionOk(x) && i < |x.fids| && x.fids[i].inUse && x.fids[i].unameIdx != POOL_NONE
    ensures SessionOk(SetFid(x, i, x.fids[i].(unameIdx := POOL_NONE)).(names := Release(x.names, x.fids[i].unameIdx)))
  {
    var e := x.fids[i];
    var e', names := e.(unameIdx := POOL_NONE), Release(x.names, e.unameIdx);
    HeldNameIsLive(x.fids, x.names, i);
    UnamesStep(x.fids, x.names, i, e', names);
    AuthsStep(x.fids, x.auths, i, e', x.auths);
    var fids' := x.fids[i := e'];
    forall k | 0 <= k < |x.fids| ensures EntryIdOk(names, Replay(x.log), fids'[k]) {
      assert EntryIdOk(x.names, Replay(x.log), x.fids[k]);
    }
  }

  lemma RenameKeeps(x: Session, i: nat, name: seq<byte>)
    requires SessionOk(x) && i < |x.fids| && x.fids[i].inUse && IdOk(Replay(x.log), CStr(Clip(name)))
    ensures SessionOk(Rename(x, i, name))
  {
    var e := x.fids[i];
    if e.unameIdx == POOL_NONE {
      NameTaken(x, i, name, e.authenticated);
    } else {
      NameGivenUp(x, i);
      var e' := e.(unameIdx := POOL_NONE);
      var y := SetFid(x, i, e').(names := Release(x.names, e.unameIdx));
      NameTaken(y, i, name, e.authenticated);
      var n := Intern(y.names, name);
      assert x.fids[i := e'][i := e.(unameIdx := n.idx)] == x.fids[i := e.(unameIdx := n.idx)];
    }
  }

  lemma AuthWriteKeeps(cfg: Config, x: Session, i: nat, data: seq<byte>, env: Env)
    requires SessionOk(x) && i < |x.fids| && x.fids[i].inUse && x.fids[i].isAuth
    ensures SessionOk(AuthWrite(cfg, x, i, data, env).x)
  {
    var id := x.auths[x.fids[i].authIdx].identity;
    AcceptKeeps(x, i);
    CStrOfClean(id);
    RenameKeeps(Accept(x, x.fids[i].authIdx), i, id);
  }

  lemma WriteKeeps(cfg: Config, x: Session, msg: seq<byte>, env: Env)
    requires SessionOk(x)
    ensures SessionOk(HandleTwrite(cfg, x, msg, env).x)
  {
    if |msg| >= 23 && |msg| - 23 >= U32(msg, 19) {
      var fid := U32(msg, 7);
      var i := FindFid(x.fids, fid);
      if i < |x.fids| {
        var e := x.fids[i];
        if e.isAuth {
          AuthWriteKeeps(cfg, x, i, msg[23..23 + U32(msg, 19)], env);
        } else if e.isOpen && e.openMode % 4 != OREAD && e.openMode % 4 != OEXEC {
          assert EntryOpenOk(Replay(x.log), e);
          IdentityShown(x, i);
        }
      }
    }
  }
}
