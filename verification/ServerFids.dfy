/** What one dispatch does to the set of bound fids, and whose replies it sends. */
module ServerFids {
  import opened Bytes
  import opened Traces
  import opened Session
  import opened Dispatch

  predicate IsBound(x: Session, fid: nat) { FindFid(x.fids, fid) < |x.fids| }

  // ---------------------------------------------------------------- tables

  lemma FindsIt(fids: seq<FidEntry>, fid: nat, i: nat)
    requires i < |fids| && fids[i].inUse && fids[i].fid == fid
    ensures FindFid(fids, fid) < |fids|
  {
  }

  /** Updating one entry keeps every fid bound that entry does not stop serving. */
  lemma UpdateKeeps(x: Session, x': Session, i: nat, fid: nat)
    requires i < |x.fids| && |x'.fids| == |x.fids| && x'.fids == x.fids[i := x'.fids[i]] && IsBound(x, fid)
    requires x.fids[i].inUse && x.fids[i].fid == fid ==> x'.fids[i].inUse && x'.fids[i].fid == fid
    ensures IsBound(x', fid)
  {
    FindsIt(x'.fids, fid, FindFid(x.fids, fid));
  }

  lemma FreeOtherKeeps(x: Session, other: nat, fid: nat)
    requires IsBound(x, fid) && other != fid
    ensures IsBound(FreeFid(x, other), fid)
  {
    var i := FindFid(x.fids, other);
    if i < |x.fids| {
      UpdateKeeps(x, FreeFid(x, other), i, fid);
    }
  }

  // ---------------------------------------------------------------- handlers

  lemma AuthBinds(cfg: Config, x: Session, msg: seq<byte>, env: Env, fid: nat)
    requires |msg| >= 11
    ensures var d := HandleTauth(cfg, x, msg, env);
            (IsBound(x, fid) ==> IsBound(d.x, fid)) && (!d.body.Rerror? ==> IsBound(d.x, U32(msg, 7)))
  {
    var d, afid := HandleTauth(cfg, x, msg, env), U32(msg, 7);
    var k := AllocAt(x.fids, afid);
    if k < |x.fids| {
      var x1 := AllocFid(x, afid, k);
      if IsBound(x, fid) {
        UpdateKeeps(x, x1, k, fid);
        FreeOtherKeeps(x1, afid, fid);
      }
      if !d.body.Rerror? {
        FindsIt(d.x.fids, afid, k);
        if IsBound(x, fid) {
          UpdateKeeps(x1, d.x, k, fid);
        }
      }
    }
  }

  /** The three ways an attach can leave the fid table: as it was, with the new entry given up again, or
      with the new entry at its node. */
  lemma AttachShape(cfg: Config, x: Session, msg: seq<byte>, env: Env) returns (x2: Session)
    requires |msg| >= 15
    ensures var d, new_ := HandleTattach(cfg, x, msg, env), U32(msg, 7); var k := AllocAt(x.fids, new_);
            || (d.x == x && d.body.Rerror?)
            || (k < |x.fids| && |x2.fids| == |x.fids| && x2.fids == x.fids[k := x2.fids[k]]
                && x2.fids[k].inUse && x2.fids[k].fid == new_
                && ((d.body.Rerror? && d.x.fids == FreeFid(x2, new_).fids)
                    || (|d.x.fids| == |x2.fids| && d.x.fids == x2.fids[k := x2.fids[k].(node := d.x.fids[k].node)])))
  {
    x2 := x;
    var k := AllocAt(x.fids, U32(msg, 7));
    var a := AttachAuthority(cfg, x, U32(msg, 11), AttachUname(msg, env));
    if !a.Denied? && k < |x.fids| {
      x2 := AttachRoot(x, U32(msg, 7), k, if a.Authentic? then a.id else AttachUname(msg, env), a.Authentic?, env.root);
    }
  }

  lemma AttachBinds(cfg: Config, x: Session, msg: seq<byte>, env: Env, fid: nat)
    requires |msg| >= 15
    ensures var d := HandleTattach(cfg, x, msg, env);
            (IsBound(x, fid) ==> IsBound(d.x, fid)) && (!d.body.Rerror? ==> IsBound(d.x, U32(msg, 7)))
  {
    var d, new_ := HandleTattach(cfg, x, msg, env), U32(msg, 7);
    var k := AllocAt(x.fids, new_);
    var x2 := AttachShape(cfg, x, msg, env);
    if d.x != x {
      if IsBound(x, fid) {
        UpdateKeeps(x, x2, k, fid);
      }
      AttachEnds(cfg, x2, new_, k, d.x, fid);
    }
  }

  lemma AttachEnds(cfg: Config, x2: Session, new_: nat, k: nat, y: Session, fid: nat)
    requires k < |x2.fids| && x2.fids[k].inUse && x2.fids[k].fid == new_
    ensures IsBound(x2, fid) && fid != new_ && y.fids == FreeFid(x2, new_).fids ==> IsBound(y, fid)
    ensures |y.fids| == |x2.fids| && y.fids == x2.fids[k := x2.fids[k].(node := y.fids[k].node)] ==> IsBound(y, new_)
    ensures IsBound(x2, fid) && |y.fids| == |x2.fids| && y.fids == x2.fids[k := x2.fids[k].(node := y.fids[k].node)]
            ==> IsBound(y, fid)
  {
    if IsBound(x2, fid) && fid != new_ {
      FreeOtherKeeps(x2, new_, fid);
    }
    if |y.fids| == |x2.fids| && y.fids == x2.fids[k := x2.fids[k].(node := y.fids[k].node)] {
      FindsIt(y.fids, new_, k);
      if IsBound(x2, fid) {
        UpdateKeeps(x2, y, k, fid);
      }
    }
  }

  lemma WalkBinds(cfg: Config, x: Session, msg: seq<byte>, env: Env, fid: nat)
    requires |msg| >= 17
    ensures var d := HandleTwalk(cfg, x, msg, env);
            && (IsBound(x, fid) ==> IsBound(d.x, fid)) && (d.body.Rerror? || d.body.Rwalk?)
            && (d.body.Rwalk? && |d.body.qids| >= U16(msg, 15) ==> IsBound(d.x, U32(msg, 11)))
  {
    var d, newfid := HandleTwalk(cfg, x, msg, env), U32(msg, 11);
    var k := AllocAt(x.fids, newfid);
    if d.x.fids != x.fids {
      assert d.x.fids == x.fids[k := d.x.fids[k]] && d.x.fids[k].inUse && d.x.fids[k].fid == newfid;
      FindsIt(d.x.fids, newfid, k);
      if IsBound(x, fid) {
        UpdateKeeps(x, d.x, k, fid);
      }
    }
  }

  lemma OpenKeepsFids(cfg: Config, x: Session, msg: seq<byte>, env: Env, fid: nat)
    requires |msg| >= 12 && IsBound(x, fid)
    ensures IsBound(HandleTopen(cfg, x, msg, env).x, fid)
  {
    var d, i := HandleTopen(cfg, x, msg, env), FindFid(x.fids, U32(msg, 7));
    if d.x.fids != x.fids {
      UpdateKeeps(x, d.x, i, fid);
    }
  }

  lemma CreateKeepsFids(cfg: Config, x: Session, msg: seq<byte>, env: Env, fid: nat)
    requires IsBound(x, fid)
    ensures IsBound(HandleTcreate(cfg, x, msg, env).x, fid)
  {
    var d := HandleTcreate(cfg, x, msg, env);
    if d.x.fids != x.fids {
      UpdateKeeps(x, d.x, FindFid(x.fids, U32(msg, 7)), fid);
    }
  }

  lemma WriteKeepsFids(cfg: Config, x: Session, msg: seq<byte>, env: Env, fid: nat)
    requires IsBound(x, fid)
    ensures IsBound(HandleTwrite(cfg, x, msg, env).x, fid)
  {
    var d := HandleTwrite(cfg, x, msg, env);
    if d.x.fids != x.fids {
      var i := FindFid(x.fids, U32(msg, 7));
      UpdateKeeps(x, d.x, i, fid);
    }
  }

  lemma RemoveKeepsFids(cfg: Config, x: Session, msg: seq<byte>, env: Env, fid: nat)
    requires |msg| >= 11 && IsBound(x, fid) && U32(msg, 7) != fid
    ensures IsBound(HandleTremove(cfg, x, msg, env).x, fid)
  {
    var i := FindFid(x.fids, U32(msg, 7));
    if i < |x.fids| {
      FreeOtherKeeps(CheckPermission(cfg, x, x.fids[i], OWRITE, env).x, U32(msg, 7), fid);
    }
  }

  // ---------------------------------------------------------------- one dispatch

  predicate Unbinds(msg: seq<byte>, fid: nat)
    requires WellFormed(msg)
  {
    msg[4] == TVERSION || ((msg[4] == TCLUNK || msg[4] == TREMOVE) && U32(msg, 7) == fid)
  }

  lemma ReadKeepsFids(cfg: Config, s: State, msg: seq<byte>, env: Env)
    requires |msg| >= 7 && |s.reqs| > 0
    ensures HandleTread(cfg, s, msg, env).x.fids == s.x.fids
  {
    if |msg| >= 23 {
      var i := FindFid(s.x.fids, U32(msg, 7));
      if i < |s.x.fids| {
        CancelKeeps(cfg, s, OfFidOrTag(s.x.fids[i].fid, U16(msg, 5)), 0);
      }
    }
  }

  lemma ClunkKeepsFids(cfg: Config, s: State, msg: seq<byte>, fid: nat)
    requires |msg| >= 11 && |s.reqs| > 0 && IsBound(s.x, fid) && U32(msg, 7) != fid
    ensures IsBound(HandleTclunk(cfg, s, msg).x, fid)
  {
    CancelKeeps(cfg, s, OfFid(U32(msg, 7)), 0);
    var i := FindFid(s.x.fids, U32(msg, 7));
    if i < |s.x.fids| {
      var node := s.x.fids[i].node;
      var x := if cfg.canClunk && node != 0 then s.x.(log := Then(s.x.log, FsClunk(node))) else s.x;
      FreeOtherKeeps(x, U32(msg, 7), fid);
    }
  }

  /** A bound fid stays bound unless the frame is a Tversion, or clunks or removes that very fid. */
  lemma ProcessKeepsFids(cfg: Config, s: State, msg: seq<byte>, env: Env, fid: nat)
    requires IsBound(s.x, fid) && (HeaderOk(msg) ==> !Unbinds(Seen(msg, env), fid))
    ensures IsBound(Process(cfg, s, msg, env).x, fid)
  {
    if HeaderOk(msg) {
      HandlerKeepsFids(cfg, Receive(s, msg), Seen(msg, env), env, fid);
    }
  }

  lemma HandlerKeepsFids(cfg: Config, s1: State, msg: seq<byte>, env: Env, fid: nat)
    requires WellFormed(msg) && |s1.reqs| > 0 && IsBound(s1.x, fid) && !Unbinds(msg, fid)
    ensures IsBound(Handle1(cfg, s1, msg, env).x, fid)
  {
    var t := msg[4];
    if t == TAUTH { AuthBinds(cfg, s1.x, msg, env, fid); }
    else if t == TATTACH { AttachBinds(cfg, s1.x, msg, env, fid); }
    else if t == TFLUSH { CancelKeeps(cfg, s1, OfTag(U16(msg, 7)), 0); }
    else if t == TWALK { WalkBinds(cfg, s1.x, msg, env, fid); }
    else if t == TOPEN { OpenKeepsFids(cfg, s1.x, msg, env, fid); }
    else if t == TCREATE { CreateKeepsFids(cfg, s1.x, msg, env, fid); }
    else if t == TREAD { ReadKeepsFids(cfg, s1, msg, env); }
    else if t == TWRITE { WriteKeepsFids(cfg, s1.x, msg, env, fid); }
    else if t == TCLUNK { ClunkKeepsFids(cfg, s1, msg, fid); }
    else if t == TREMOVE { RemoveKeepsFids(cfg, s1.x, msg, env, fid); }
  }

  // ---------------------------------------------------------------- whose replies

  /** Everything sent since then answers a request whose tag is in `tags`. */
  predicate SentSince(then_: Trace<Reply>, now: Trace<Reply>, tags: set<nat>) {
    now == then_ || (now.Then? && now.last.tag in tags && SentSince(then_, now.before, tags))
  }

  function Since(then_: Trace<Reply>, now: Trace<Reply>): seq<Reply> {
    if now == then_ || now.Start? then [] else Since(then_, now.before) + [now.last]
  }

  function ParkedTags(pend: seq<PendingRead>): set<nat> {
    set i | 0 <= i < |pend| && pend[i].inUse :: pend[i].tag
  }

  lemma {:induction false} CancelSends(cfg: Config, s: State, sel: Selector, i: nat, then_: Trace<Reply>,
                                       tags: set<nat>)
    requires i <= |s.pend| && SentSince(then_, s.sent, tags) && ParkedTags(s.pend) <= tags
    ensures SentSince(then_, CancelFrom(cfg, s, sel, i).sent, tags)
    decreases |s.pend| - i
  {
    if i < |s.pend| {
      var s1 := if Selects(sel, s.pend[i]) then CancelOne(cfg, s, i) else s;
      assert s.pend[i].inUse ==> s.pend[i].tag in ParkedTags(s.pend);
      assert ParkedTags(s1.pend) <= tags;
      CancelSends(cfg, s1, sel, i + 1, then_, tags);
    }
  }

  lemma CancelParked(cfg: Config, s: State, sel: Selector)
    ensures ParkedTags(Cancel(cfg, s, sel).pend) <= ParkedTags(s.pend)
  {
    CancelKeeps(cfg, s, sel, 0);
  }

  lemma ReadFileSends(cfg: Config, s: State, e: FidEntry, tag: nat, count: nat, env: Env)
    requires |s.reqs| > 0
    ensures var s', tags := ReadFile(cfg, s, e, tag, count, env), ParkedTags(s.pend) + {tag};
            SentSince(s.sent, s'.sent, tags) && ParkedTags(s'.pend) <= tags
  {
    var sel := OfFidOrTag(e.fid, tag);
    CancelSends(cfg, s, sel, 0, s.sent, ParkedTags(s.pend) + {tag});
    CancelParked(cfg, s, sel);
    CancelKeeps(cfg, s, sel, 0);
  }

  lemma ReadSends(cfg: Config, s: State, msg: seq<byte>, env: Env)
    requires |msg| >= 7 && |s.reqs| > 0
    ensures var s', tags := HandleTread(cfg, s, msg, env), ParkedTags(s.pend) + {U16(msg, 5)};
            SentSince(s.sent, s'.sent, tags) && ParkedTags(s'.pend) <= tags
  {
    if |msg| >= 23 {
      var i := FindFid(s.x.fids, U32(msg, 7));
      if i < |s.x.fids| {
        var count, limit := U32(msg, 19), ReadLimit(cfg, s.x.msize);
        ReadFileSends(cfg, s, s.x.fids[i], U16(msg, 5), if count > limit then limit else count, env);
      }
    }
  }

  /** A handler that only finishes with one reply. */
  lemma FinishSends(cfg: Config, s: State, tag: nat, d: Done)
    requires |s.reqs| > 0
    ensures SentSince(s.sent, Finish(cfg, s, tag, d).sent, ParkedTags(s.pend) + {tag})
            && Finish(cfg, s, tag, d).pend == s.pend
  {
  }

  lemma FlushSends(cfg: Config, s: State, msg: seq<byte>)
    requires |s.reqs| > 0 && |msg| >= 9
    ensures var s' := HandleTflush(cfg, s, msg);
            SentSince(s.sent, s'.sent, ParkedTags(s.pend) + {U16(msg, 5)}) && ParkedTags(s'.pend) <= ParkedTags(s.pend)
  {
    CancelSends(cfg, s, OfTag(U16(msg, 7)), 0, s.sent, ParkedTags(s.pend) + {U16(msg, 5)});
    CancelParked(cfg, s, OfTag(U16(msg, 7)));
  }

  lemma ClunkSends(cfg: Config, s: State, msg: seq<byte>)
    requires |s.reqs| > 0 && |msg| >= 11
    ensures var s' := HandleTclunk(cfg, s, msg);
            SentSince(s.sent, s'.sent, ParkedTags(s.pend) + {U16(msg, 5)}) && ParkedTags(s'.pend) <= ParkedTags(s.pend)
  {
    CancelSends(cfg, s, OfFid(U32(msg, 7)), 0, s.sent, ParkedTags(s.pend) + {U16(msg, 5)});
    CancelParked(cfg, s, OfFid(U32(msg, 7)));
  }

  lemma VersionSends(cfg: Config, s: State, msg: seq<byte>, env: Env)
    requires |s.reqs| > 0 && |msg| >= 7
    ensures var s' := HandleTversion(cfg, s, msg, env);
            SentSince(s.sent, s'.sent, ParkedTags(s.pend) + {U16(msg, 5)}) && ParkedTags(s'.pend) <= ParkedTags(s.pend)
  {
  }

  /** One dispatch answers the request it was given, or reads that were parked; and what is parked
      afterwards was parked before, or is this request, a Tread. */
  lemma ProcessSends(cfg: Config, s: State, msg: seq<byte>, env: Env)
    requires HeaderOk(msg)
    ensures var s', tags := Process(cfg, s, msg, env), ParkedTags(s.pend) + {U16(msg, 5)};
            SentSince(s.sent, s'.sent, tags) && ParkedTags(s'.pend) <= tags
    ensures msg[4] != TREAD ==> ParkedTags(Process(cfg, s, msg, env).pend) <= ParkedTags(s.pend)
  {
    var s1, m := Receive(s, msg), Seen(msg, env);
    var t := m[4];
    if t == TVERSION { VersionSends(cfg, s1, m, env); }
    else if t == TFLUSH { FlushSends(cfg, s1, m); }
    else if t == TCLUNK { ClunkSends(cfg, s1, m); }
    else if t == TREAD { ReadSends(cfg, s1, m, env); }
    else { OtherSends(cfg, s1, m, env); }
  }

  lemma OtherSends(cfg: Config, s: State, msg: seq<byte>, env: Env)
    requires |s.reqs| > 0 && WellFormed(msg) && msg[4] !in {TVERSION, TFLUSH, TCLUNK, TREAD}
    ensures var s' := Handle1(cfg, s, msg, env);
            SentSince(s.sent, s'.sent, ParkedTags(s.pend) + {U16(msg, 5)}) && s'.pend == s.pend
  {
    var t, tag := msg[4], U16(msg, 5);
    if t == TAUTH { FinishSends(cfg, s, tag, HandleTauth(cfg, s.x, msg, env)); }
    else if t == TATTACH { FinishSends(cfg, s, tag, HandleTattach(cfg, s.x, msg, env)); }
    else if t == TWALK { FinishSends(cfg, s, tag, HandleTwalk(cfg, s.x, msg, env)); }
    else if t == TOPEN { FinishSends(cfg, s, tag, HandleTopen(cfg, s.x, msg, env)); }
    else if t == TCREATE { FinishSends(cfg, s, tag, HandleTcreate(cfg, s.x, msg, env)); }
    else if t == TWRITE { FinishSends(cfg, s, tag, HandleTwrite(cfg, s.x, msg, env)); }
    else if t == TREMOVE { FinishSends(cfg, s, tag, HandleTremove(cfg, s.x, msg, env)); }
    else if t == TSTAT { FinishSends(cfg, s, tag, HandleTstat(cfg, s.x, msg, env)); }
    else if t == TWSTAT { FinishSends(cfg, s, tag, HandleTwstat(s.x, msg)); }
    else { FinishSends(cfg, s, tag, Fail(s.x, NotSupported)); }
  }
}
