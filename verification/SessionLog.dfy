/** No handler forgets an event: the log before is how far the log after had got. */
module SessionLog {
  import opened Bytes
  import opened PathNames
  import opened Traces
  import opened Session
  import opened Dispatch

  lemma OneMore(a: Log, b: Log, e: Event)
    requires Reaches(a, b)
    ensures Reaches(a, Then(b, e))
  {
  }

  lemma DropExtends(cfg: Config, a: Log, b: Log, node: nat, start: nat)
    requires Reaches(a, b)
    ensures Reaches(a, Drop(cfg, node, start, b))
  {
    OneMore(a, b, FsClunk(node));
  }

  lemma StepExtends(cfg: Config, a: Log, b: Log, fid: nat, node: nat, start: nat, name: seq<byte>)
    requires Reaches(a, b)
    ensures Reaches(a, Drop(cfg, node, start, Then(b, FsWalk(fid, node, name))))
  {
    OneMore(a, b, FsWalk(fid, node, name));
    DropExtends(cfg, a, Then(b, FsWalk(fid, node, name)), node, start);
  }

  lemma {:induction false} AnameExtends(cfg: Config, env: Env, fid: nat, names: seq<seq<byte>>, k: nat, node: nat,
                                        a: Log, log: Log)
    requires Reaches(a, log)
    ensures Reaches(a, WalkAname(cfg, env, fid, names, k, node, log).log)
    decreases |names|
  {
    if |names| > 0 {
      StepExtends(cfg, a, log, fid, node, env.root, names[0]);
      if WalkAnswer(env, k) != 0 {
        var log' := Drop(cfg, node, env.root, Then(log, FsWalk(fid, node, names[0])));
        AnameExtends(cfg, env, fid, names[1..], k + 1, WalkAnswer(env, k), a, log');
      }
    }
  }

  lemma {:induction false} NamesExtend(j: WalkJob, i: nat, off: nat, node: nat, qids: seq<Qid>, a: Log, log: Log)
    requires i <= j.nw && Reaches(a, log)
    ensures Reaches(a, WalkNames(j, i, off, node, qids, log).log)
    decreases j.nw - i
  {
    if i < j.nw {
      DropExtends(j.cfg, a, log, node, j.start);
      if !Cut(j.msg, off) {
        var name, next := NameAt(j.msg, off), WalkAnswer(j.env, i);
        StepExtends(j.cfg, a, log, j.fid, node, j.start, name);
        if next != 0 {
          NamesExtend(j, i + 1, off + 2 + U16(j.msg, off), next, qids + [j.env.qid(next)], a,
                      Drop(j.cfg, node, j.start, Then(log, FsWalk(j.fid, node, name))));
        }
      }
    }
  }

  lemma DescendExtends(cfg: Config, x: Session, fid: nat, k: nat, aname: seq<byte>, env: Env, a: Log)
    requires k < |x.fids| && Reaches(a, x.log)
    ensures Reaches(a, Descend(cfg, x, fid, k, aname, env).x.log)
  {
    AnameExtends(cfg, env, fid, Components(aname), 0, env.root, a, x.log);
  }

  lemma AttachExtends(cfg: Config, x: Session, msg: seq<byte>, env: Env)
    requires |msg| >= 15
    ensures Reaches(x.log, HandleTattach(cfg, x, msg, env).x.log)
  {
    var fid, received := U32(msg, 7), AttachUname(msg, env);
    var a, k := AttachAuthority(cfg, x, U32(msg, 11), received), AllocAt(x.fids, fid);
    if !a.Denied? && k < |x.fids| {
      var uname := if a.Authentic? then a.id else received;
      var x1 := AttachRoot(x, fid, k, uname, a.Authentic?, env.root);
      OneMore(x.log, x.log, Bound(fid));
      DescendExtends(cfg, x1, fid, k, AttachAname(msg, |uname|), env, x.log);
    }
  }

  lemma WalkExtends(cfg: Config, x: Session, msg: seq<byte>, env: Env)
    requires |msg| >= 17
    ensures Reaches(x.log, HandleTwalk(cfg, x, msg, env).x.log)
  {
    var fid, newfid, nw := U32(msg, 7), U32(msg, 11), U16(msg, 15);
    var i := FindFid(x.fids, fid);
    if i < |x.fids| && !x.fids[i].isOpen && nw <= MAX_WELEM {
      var e := x.fids[i];
      var j, begun := WalkJob(cfg, msg, env, fid, e.node, nw), Then(x.log, Walks(fid));
      OneMore(x.log, x.log, Walks(fid));
      NamesExtend(j, 0, 17, e.node, [], x.log, begun);
      var w := WalkNames(j, 0, 17, e.node, [], begun);
      OneMore(x.log, w.log, Bound(newfid));
      if w.Reached? {
        DropExtends(cfg, x.log, w.log, w.node, e.node);
      }
    }
  }

  lemma PermissionExtends(cfg: Config, x: Session, e: FidEntry, mode: nat, env: Env)
    ensures Reaches(x.log, CheckPermission(cfg, x, e, mode, env).x.log)
  {
    OneMore(x.log, x.log, CheckPerm(e.fid, FidIdentity(x, e)));
  }

  lemma OpenExtends(cfg: Config, x: Session, msg: seq<byte>, env: Env)
    requires |msg| >= 12
    ensures Reaches(x.log, HandleTopen(cfg, x, msg, env).x.log)
  {
    var i := FindFid(x.fids, U32(msg, 7));
    if i < |x.fids| {
      PermissionExtends(cfg, x, x.fids[i], msg[11], env);
      OneMore(x.log, CheckPermission(cfg, x, x.fids[i], msg[11], env).x.log, Opened(U32(msg, 7), msg[11]));
    }
  }

  lemma CreateExtends(cfg: Config, x: Session, msg: seq<byte>, env: Env)
    ensures Reaches(x.log, HandleTcreate(cfg, x, msg, env).x.log)
  {
    if |msg| >= 13 && |msg| >= 13 + U16(msg, 11) + 5 {
      var fid, mode := U32(msg, 7), msg[17 + U16(msg, 11)];
      var i := FindFid(x.fids, fid);
      if i < |x.fids| {
        var e := x.fids[i];
        PermissionExtends(cfg, x, e, OWRITE, env);
        var log := CheckPermission(cfg, x, e, OWRITE, env).x.log;
        OneMore(x.log, log, FsCreate(fid, FidIdentity(x, e)));
        OneMore(x.log, Then(log, FsCreate(fid, FidIdentity(x, e))), Opened(fid, mode));
      }
    }
  }

  lemma RemoveExtends(cfg: Config, x: Session, msg: seq<byte>, env: Env)
    requires |msg| >= 11
    ensures Reaches(x.log, HandleTremove(cfg, x, msg, env).x.log)
  {
    var i := FindFid(x.fids, U32(msg, 7));
    if i < |x.fids| {
      PermissionExtends(cfg, x, x.fids[i], OWRITE, env);
    }
  }

  lemma WriteExtends(cfg: Config, x: Session, msg: seq<byte>, env: Env)
    ensures Reaches(x.log, HandleTwrite(cfg, x, msg, env).x.log)
  {
    if |msg| >= 23 && |msg| - 23 >= U32(msg, 19) {
      var i := FindFid(x.fids, U32(msg, 7));
      if i < |x.fids| {
        var e := x.fids[i];
        OneMore(x.log, x.log, FsWrite(U32(msg, 7), FidIdentity(x, e)));
        if AuthLive(x.auths, e.authIdx) {
          OneMore(x.log, x.log, Verified(x.auths[e.authIdx].identity));
        }
      }
    }
  }

  lemma ReadExtends(cfg: Config, s: State, msg: seq<byte>, env: Env)
    requires |msg| >= 7 && |s.reqs| > 0
    ensures Reaches(s.x.log, HandleTread(cfg, s, msg, env).x.log)
  {
    if |msg| >= 23 {
      var i := FindFid(s.x.fids, U32(msg, 7));
      if i < |s.x.fids| {
        var e := s.x.fids[i];
        OneMore(s.x.log, s.x.log, FsRead(e.fid, FidIdentity(s.x, e)));
        CancelKeeps(cfg, s, OfFidOrTag(e.fid, U16(msg, 5)), 0);
      }
    }
  }

  lemma {:induction false} ResetExtends(cfg: Config, fids: seq<FidEntry>, n: nat, a: Log, log: Log)
    requires n <= |fids| && Reaches(a, log)
    ensures Reaches(a, ResetClunks(cfg, fids, n, log))
  {
    if n > 0 {
      ResetExtends(cfg, fids, n - 1, a, log);
      OneMore(a, ResetClunks(cfg, fids, n - 1, log), FsClunk(fids[n - 1].node));
    }
  }

  lemma {:induction false} CleanupExtends(cfg: Config, x: Session, n: nat)
    requires n <= |x.fids|
    ensures Reaches(x.log, CleanupFids(cfg, x, n).log)
  {
    if n > 0 {
      CleanupExtends(cfg, x, n - 1);
      var y := CleanupFids(cfg, x, n - 1);
      OneMore(x.log, y.log, FsClunk(y.fids[n - 1].node));
    }
  }

  lemma ClunkExtends(cfg: Config, s: State, msg: seq<byte>)
    requires |msg| >= 11 && |s.reqs| > 0
    ensures Reaches(s.x.log, HandleTclunk(cfg, s, msg).x.log)
  {
    var fid := U32(msg, 7);
    var i := FindFid(s.x.fids, fid);
    if i < |s.x.fids| {
      CancelKeeps(cfg, s, OfFid(fid), 0);
      OneMore(s.x.log, s.x.log, FsClunk(s.x.fids[i].node));
    }
  }

  /** One dispatch only adds to the log. */
  lemma HandlerExtends(cfg: Config, s: State, msg: seq<byte>, env: Env)
    requires WellFormed(msg) && |s.reqs| > 0
    ensures Reaches(s.x.log, Handle1(cfg, s, msg, env).x.log)
  {
    var t := msg[4];
    if t == TVERSION {
      OneMore(s.x.log, s.x.log, Reset);
      ResetExtends(cfg, s.x.fids, |s.x.fids|, s.x.log, Then(s.x.log, Reset));
    }
    else if t == TAUTH { OneMore(s.x.log, s.x.log, Bound(U32(msg, 7))); }
    else if t == TATTACH { AttachExtends(cfg, s.x, msg, env); }
    else if t == TFLUSH { CancelKeeps(cfg, s, OfTag(U16(msg, 7)), 0); }
    else if t == TWALK { WalkExtends(cfg, s.x, msg, env); }
    else if t == TOPEN { OpenExtends(cfg, s.x, msg, env); }
    else if t == TCREATE { CreateExtends(cfg, s.x, msg, env); }
    else if t == TREAD { ReadExtends(cfg, s, msg, env); }
    else if t == TWRITE { WriteExtends(cfg, s.x, msg, env); }
    else if t == TCLUNK { ClunkExtends(cfg, s, msg); }
    else if t == TREMOVE { RemoveExtends(cfg, s.x, msg, env); }
  }
}
