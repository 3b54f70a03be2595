/** A fid shows one identity for as long as it is bound, whatever other fids and their names do. */
module Identities {
  import opened Bytes
  import opened PathNames
  import opened Traces
  import opened Session
  import opened SessionInvariant
  import opened SessionKept
  import opened Dispatch
  import opened ServerInvariant
  import opened ServerRuns

  /** What the identity an entry shows depends on. */
  predicate EntryKept(e: FidEntry, e': FidEntry) {
    e'.fid == e.fid && e'.isAuth == e.isAuth && e'.unameIdx == e.unameIdx && e'.authenticated == e.authenticated
  }

  predicate TextKept(x: Session, y: Session, i: nat) {
    |y.names| == |x.names| && (i < |x.names| ==> CStr(y.names[i].text) == CStr(x.names[i].text))
  }

  predicate Stays(x: Session, y: Session, j: nat)
    requires j < |x.fids| == |y.fids|
  {
    x.fids[j].inUse && !x.fids[j].isAuth && y.fids[j].inUse ==>
      EntryKept(x.fids[j], y.fids[j]) && TextKept(x, y, x.fids[j].unameIdx)
  }

  predicate AllStay(x: Session, y: Session) {
    |x.fids| == |y.fids| && forall j :: 0 <= j < |x.fids| ==> Stays(x, y, j)
  }

  lemma StayingShows(x: Session, y: Session, j: nat)
    requires SessionOk(x) && SessionOk(y) && j < |x.fids| == |y.fids| && Stays(x, y, j)
    requires x.fids[j].inUse && !x.fids[j].isAuth && y.fids[j].inUse
    ensures y.fids[j].fid == x.fids[j].fid && FidIdentity(y, y.fids[j]) == FidIdentity(x, x.fids[j])
  {
    if x.fids[j].unameIdx < |x.names| {
      HeldNameIsLive(x.fids, x.names, j);
      HeldNameIsLive(y.fids, y.names, j);
    }
  }

  // ---------------------------------------------------------------- names that change hands

  /** Interning overwrites no name that some fid holds. */
  lemma InternStays(x: Session, y: Session, k: nat, name: seq<byte>)
    requires SessionOk(x) && k < |x.fids| && x.fids[k].inUse && x.fids[k].unameIdx == POOL_NONE
    requires y.names == Intern(x.names, name).names
    requires |y.fids| == |x.fids| && forall j :: 0 <= j < |x.fids| && j != k ==> y.fids[j] == x.fids[j]
    ensures forall j :: 0 <= j < |x.fids| && j != k ==> Stays(x, y, j)
  {
    forall i | 0 <= i < |x.names| ensures x.names[i].refs < 255 {
      HoldersSlack(x.fids, k, i);
    }
    InternMeans(x.names, name);
    forall j | 0 <= j < |x.fids| && j != k ensures Stays(x, y, j) {
      if x.fids[j].inUse && x.fids[j].unameIdx < |x.names| {
        HeldNameIsLive(x.fids, x.names, j);
      }
    }
  }

  lemma RenameStays(x: Session, i: nat, name: seq<byte>)
    requires SessionOk(x) && i < |x.fids| && x.fids[i].inUse && x.fids[i].isAuth
    ensures AllStay(x, Rename(x, i, name))
  {
    var e, y := x.fids[i], Rename(x, i, name);
    if e.unameIdx == POOL_NONE {
      InternStays(x, y, i, name);
    } else {
      NameGivenUp(x, i);
      var z := SetFid(x, i, e.(unameIdx := POOL_NONE)).(names := Release(x.names, e.unameIdx));
      InternStays(z, y, i, name);
      forall j | 0 <= j < |x.fids| ensures Stays(x, y, j) {
        assert j != i ==> Stays(z, y, j) && z.fids[j] == x.fids[j];
      }
    }
  }

  lemma FreeStays(x: Session, fid: nat)
    ensures AllStay(x, FreeFid(x, fid))
  {
  }

  lemma StayTwice(x: Session, y: Session, z: Session, k: nat)
    requires |x.fids| == |y.fids| && k < |x.fids| && !x.fids[k].inUse && AllStay(y, z)
    requires forall j :: 0 <= j < |x.fids| && j != k ==> y.fids[j] == x.fids[j] && Stays(x, y, j)
    ensures AllStay(x, z)
  {
    forall j | 0 <= j < |x.fids| ensures Stays(x, z, j) {
      assert Stays(y, z, j);
    }
  }

  // ---------------------------------------------------------------- handlers

  lemma RootStays(x: Session, fid: nat, k: nat, uname: seq<byte>, authentic: bool, root: nat)
    requires SessionOk(x) && k < |x.fids| && k == AllocAt(x.fids, fid)
    ensures var y := AttachRoot(x, fid, k, uname, authentic, root);
            |y.fids| == |x.fids| && forall j :: 0 <= j < |x.fids| && j != k ==> y.fids[j] == x.fids[j] && Stays(x, y, j)
  {
    var x1, y := AllocFid(x, fid, k), AttachRoot(x, fid, k, uname, authentic, root);
    FidAllocated(x, fid, k);
    InternStays(x1, y, k, uname);
    forall j | 0 <= j < |x.fids| && j != k ensures Stays(x, y, j) {
      assert Stays(x1, y, j) && x1.fids[j] == x.fids[j];
    }
  }

  lemma DescendStays(cfg: Config, x: Session, fid: nat, k: nat, aname: seq<byte>, env: Env)
    requires k < |x.fids|
    ensures AllStay(x, Descend(cfg, x, fid, k, aname, env).x)
  {
    FreeStays(x, fid);
    FreeStays(x.(log := WalkAname(cfg, env, fid, Components(aname), 0, env.root, x.log).log), fid);
  }

  lemma AttachStays(cfg: Config, x: Session, msg: seq<byte>, env: Env)
    requires SessionOk(x) && |msg| >= 15
    ensures AllStay(x, HandleTattach(cfg, x, msg, env).x)
  {
    var fid, received := U32(msg, 7), AttachUname(msg, env);
    var a, k := AttachAuthority(cfg, x, U32(msg, 11), received), AllocAt(x.fids, fid);
    if !a.Denied? && k < |x.fids| {
      var uname := if a.Authentic? then a.id else received;
      var x1 := AttachRoot(x, fid, k, uname, a.Authentic?, env.root);
      RootStays(x, fid, k, uname, a.Authentic?, env.root);
      DescendStays(cfg, x1, fid, k, AttachAname(msg, |uname|), env);
      StayTwice(x, x1, HandleTattach(cfg, x, msg, env).x, k);
    }
  }

  lemma AuthStays(cfg: Config, x: Session, msg: seq<byte>, env: Env)
    requires |msg| >= 11
    ensures AllStay(x, HandleTauth(cfg, x, msg, env).x)
  {
    var afid := U32(msg, 7);
    var k := AllocAt(x.fids, afid);
    if k < |x.fids| {
      FreeStays(AllocFid(x, afid, k), afid);
      StayTwice(x, AllocFid(x, afid, k), FreeFid(AllocFid(x, afid, k), afid), k);
    }
  }

  lemma BindStays(x: Session, from: FidEntry, newfid: nat, k: nat, node: nat)
    requires k < |x.fids| && !x.fids[k].inUse
    ensures AllStay(x, BindWalked(x, from, newfid, k, node))
  {
  }

  lemma BoundShows(x: Session, i: nat, newfid: nat, k: nat, node: nat)
    requires SessionOk(x) && i < |x.fids| && x.fids[i].inUse && k == AllocAt(x.fids, newfid) && k < |x.fids|
    ensures var y := BindWalked(x, x.fids[i], newfid, k, node);
            && |y.fids| == |x.fids| && FindFid(y.fids, newfid) == k && y.fids[k].node == node
            && FidIdentity(y, y.fids[k]) == FidIdentity(x, x.fids[i])
  {
    var e, y := x.fids[i], BindWalked(x, x.fids[i], newfid, k, node);
    assert y.fids == x.fids[k := y.fids[k]] && y.fids[k].inUse && y.fids[k].fid == newfid;
    if e.unameIdx < |x.names| {
      HeldNameIsLive(x.fids, x.names, i);
      HoldersSlack(x.fids, k, e.unameIdx);
    }
  }

  /** A walk that binds its newfid passes on the identity of the fid it started from. */
  lemma WalkPassesIdentity(cfg: Config, x: Session, msg: seq<byte>, env: Env)
    requires SessionOk(x) && |msg| >= 17
    requires var b := HandleTwalk(cfg, x, msg, env).body; b.Rwalk? && |b.qids| >= U16(msg, 15)
    ensures var y := HandleTwalk(cfg, x, msg, env).x;
            var i, k := FindFid(x.fids, U32(msg, 7)), FindFid(y.fids, U32(msg, 11));
            i < |x.fids| && k < |y.fids| && FidIdentity(y, y.fids[k]) == FidIdentity(x, x.fids[i])
  {
    var fid, newfid, nw := U32(msg, 7), U32(msg, 11), U16(msg, 15);
    var i, k := FindFid(x.fids, fid), AllocAt(x.fids, newfid);
    var e := x.fids[i];
    assert EntryOpenOk(Replay(x.log), e);
    var j, begun := WalkJob(cfg, msg, env, fid, e.node, nw), Then(x.log, Walks(fid));
    WalkNamesQuiet(j, 0, 17, e.node, [], begun);
    var w := WalkNames(j, 0, 17, e.node, [], begun);
    BoundShows(x.(log := w.log), i, newfid, k, w.node);
  }

  lemma WalkStays(cfg: Config, x: Session, msg: seq<byte>, env: Env)
    requires |msg| >= 17
    ensures AllStay(x, HandleTwalk(cfg, x, msg, env).x)
  {
    var fid, nw := U32(msg, 7), U16(msg, 15);
    var i, k := FindFid(x.fids, fid), AllocAt(x.fids, U32(msg, 11));
    if i < |x.fids| && !x.fids[i].isOpen && nw <= MAX_WELEM && k < |x.fids| {
      var e := x.fids[i];
      var w := WalkNames(WalkJob(cfg, msg, env, fid, e.node, nw), 0, 17, e.node, [], Then(x.log, Walks(fid)));
      if w.Reached? {
        BindStays(x.(log := w.log), e, U32(msg, 11), k, w.node);
      }
    }
  }

  lemma OpenStays(cfg: Config, x: Session, msg: seq<byte>, env: Env)
    requires |msg| >= 12
    ensures AllStay(x, HandleTopen(cfg, x, msg, env).x)
  {
  }

  lemma CreateStays(cfg: Config, x: Session, msg: seq<byte>, env: Env)
    ensures AllStay(x, HandleTcreate(cfg, x, msg, env).x)
  {
  }

  lemma RemoveStays(cfg: Config, x: Session, msg: seq<byte>, env: Env)
    requires |msg| >= 11
    ensures AllStay(x, HandleTremove(cfg, x, msg, env).x)
  {
    var i := FindFid(x.fids, U32(msg, 7));
    if i < |x.fids| {
      FreeStays(CheckPermission(cfg, x, x.fids[i], OWRITE, env).x, U32(msg, 7));
    }
  }

  lemma WriteStays(cfg: Config, x: Session, msg: seq<byte>, env: Env)
    requires SessionOk(x)
    ensures AllStay(x, HandleTwrite(cfg, x, msg, env).x)
  {
    if |msg| >= 23 && |msg| - 23 >= U32(msg, 19) {
      var i := FindFid(x.fids, U32(msg, 7));
      if i < |x.fids| && x.fids[i].isAuth {
        AuthWriteStays(cfg, x, i, msg[23..23 + U32(msg, 19)], env);
      }
    }
  }

  lemma AuthWriteStays(cfg: Config, x: Session, i: nat, data: seq<byte>, env: Env)
    requires SessionOk(x) && i < |x.fids| && x.fids[i].inUse && x.fids[i].isAuth
    ensures AllStay(x, AuthWrite(cfg, x, i, data, env).x)
  {
    AuthWriteEnds(cfg, x, i, data, env);
    AcceptedStays(x, i, x.auths[x.fids[i].authIdx].identity);
  }

  lemma AuthWriteEnds(cfg: Config, x: Session, i: nat, data: seq<byte>, env: Env)
    requires i < |x.fids| && x.fids[i].authIdx < |x.auths|
    ensures var j, y := x.fids[i].authIdx, AuthWrite(cfg, x, i, data, env).x;
            y == x || y == Rename(Accept(x, j), i, x.auths[j].identity)
  {
  }

  lemma AcceptedStays(x: Session, i: nat, id: seq<byte>)
    requires SessionOk(x) && i < |x.fids| && x.fids[i].inUse && x.fids[i].isAuth
    ensures AllStay(x, Rename(Accept(x, x.fids[i].authIdx), i, id))
  {
    AcceptKeeps(x, i);
    var y := Accept(x, x.fids[i].authIdx);
    var z := Rename(y, i, id);
    RenameStays(y, i, id);
    forall j | 0 <= j < |x.fids| ensures Stays(x, z, j) {
      assert Stays(y, z, j);
    }
  }

  lemma ReadStays(cfg: Config, s: State, msg: seq<byte>, env: Env)
    requires |msg| >= 7 && |s.reqs| > 0
    ensures AllStay(s.x, HandleTread(cfg, s, msg, env).x)
  {
    ReadTouches(cfg, s, msg, env);
  }

  lemma ClunkStays(cfg: Config, s: State, msg: seq<byte>)
    requires |msg| >= 11 && |s.reqs| > 0
    ensures AllStay(s.x, HandleTclunk(cfg, s, msg).x)
  {
    var fid := U32(msg, 7);
    var i := FindFid(s.x.fids, fid);
    if i < |s.x.fids| {
      CancelKeeps(cfg, s, OfFid(fid), 0);
      FreeStays(s.x.(log := Then(s.x.log, FsClunk(s.x.fids[i].node))), fid);
      FreeStays(s.x, fid);
    }
  }

  lemma VersionStays(cfg: Config, s: State, msg: seq<byte>, env: Env)
    requires |msg| >= 7 && |s.reqs| > 0
    ensures AllStay(s.x, HandleTversion(cfg, s, msg, env).x)
  {
  }

  lemma HandlerStays(cfg: Config, s: State, msg: seq<byte>, env: Env)
    requires WellFormed(msg) && |s.reqs| > 0 && SessionOk(s.x)
    ensures AllStay(s.x, Handle1(cfg, s, msg, env).x)
  {
    var t := msg[4];
    if t == TVERSION { VersionStays(cfg, s, msg, env); }
    else if t == TAUTH { AuthStays(cfg, s.x, msg, env); }
    else if t == TATTACH { AttachStays(cfg, s.x, msg, env); }
    else if t == TFLUSH { CancelKeeps(cfg, s, OfTag(U16(msg, 7)), 0); }
    else if t == TWALK { WalkStays(cfg, s.x, msg, env); }
    else if t == TOPEN { OpenStays(cfg, s.x, msg, env); }
    else if t == TCREATE { CreateStays(cfg, s.x, msg, env); }
    else if t == TREAD { ReadStays(cfg, s, msg, env); }
    else if t == TWRITE { WriteStays(cfg, s.x, msg, env); }
    else if t == TCLUNK { ClunkStays(cfg, s, msg); }
    else if t == TREMOVE { RemoveStays(cfg, s.x, msg, env); }
  }

  lemma {:induction false} CleanupStays(cfg: Config, x: Session, n: nat)
    requires n <= |x.fids|
    ensures var y := CleanupFids(cfg, x, n);
            |y.fids| == |x.fids| && forall j :: 0 <= j < n ==> !y.fids[j].inUse
  {
    if n > 0 {
      CleanupStays(cfg, x, n - 1);
    }
  }

  // ---------------------------------------------------------------- on a run

  predicate Serves(s: State, j: nat) { j < |s.x.fids| && s.x.fids[j].inUse && !s.x.fids[j].isAuth }

  /** Entry j is bound, to a file, in every state of the run. */
  predicate Throughout(cfg: Config, w: World, acts: seq<Action>, j: nat)
    requires Feasible(cfg, w, acts)
    decreases |acts|
  {
    Serves(w.s, j) && (|acts| > 0 ==> Throughout(cfg, Apply(cfg, w, acts[0]), acts[1..], j))
  }

  lemma StepStays(cfg: Config, w: World, a: Action, j: nat)
    requires ConfigOk(cfg) && WorldOk(cfg, w) && Enabled(cfg, w, a)
    requires Serves(w.s, j) && Serves(Apply(cfg, w, a).s, j)
    ensures var x, y := w.s.x, Apply(cfg, w, a).s.x;
            y.fids[j].fid == x.fids[j].fid && FidIdentity(y, y.fids[j]) == FidIdentity(x, x.fids[j])
  {
    if a.DispatchLeave? {
      DispatchStays(cfg, w, j);
    } else if a.CleanFinish? {
      CleanedServesNone(cfg, w.s, j);
    } else {
      SessionLeftAlone(cfg, w, a);
    }
  }

  lemma SessionLeftAlone(cfg: Config, w: World, a: Action)
    requires Enabled(cfg, w, a) && !a.DispatchLeave? && !a.CleanFinish?
    ensures Apply(cfg, w, a).s.x == w.s.x
  {
  }

  lemma CleanedServesNone(cfg: Config, s: State, j: nat)
    ensures !Serves(Cleanup(cfg, s), j)
  {
    CleanupStays(cfg, s.x, |s.x.fids|);
  }

  lemma DispatchStays(cfg: Config, w: World, j: nat)
    requires ConfigOk(cfg) && WorldOk(cfg, w) && Enabled(cfg, w, DispatchLeave)
    requires Serves(w.s, j) && Serves(Apply(cfg, w, DispatchLeave).s, j)
    ensures var x, y := w.s.x, Apply(cfg, w, DispatchLeave).s.x;
            y.fids[j].fid == x.fids[j].fid && FidIdentity(y, y.fids[j]) == FidIdentity(x, x.fids[j])
  {
    var f := w.disp.value;
    var s' := Process(cfg, w.s, f.msg, f.env);
    ProcessOk(cfg, w.s, f.msg, f.env);
    ProcessStays(cfg, w.s, f.msg, f.env);
    StayingShows(w.s.x, s'.x, j);
  }

  lemma ProcessStays(cfg: Config, s: State, msg: seq<byte>, env: Env)
    requires SessionOk(s.x)
    ensures AllStay(s.x, Process(cfg, s, msg, env).x)
  {
    if HeaderOk(msg) {
      HandlerStays(cfg, Receive(s, msg), Seen(msg, env), env);
    }
  }

  /** On every run, a fid that stays bound shows, to the filesystem and the policy, the identity it had. */
  lemma {:induction false} IdentityForLife(cfg: Config, w: World, acts: seq<Action>, j: nat)
    requires ConfigOk(cfg) && WorldOk(cfg, w) && Feasible(cfg, w, acts) && Throughout(cfg, w, acts, j)
    ensures var x, y := w.s.x, Run(cfg, w, acts).s.x;
            && Serves(Run(cfg, w, acts).s, j)
            && y.fids[j].fid == x.fids[j].fid && FidIdentity(y, y.fids[j]) == FidIdentity(x, x.fids[j])
    decreases |acts|
  {
    if |acts| > 0 {
      StepOk(cfg, w, acts[0]);
      StepStays(cfg, w, acts[0], j);
      IdentityForLife(cfg, Apply(cfg, w, acts[0]), acts[1..], j);
    }
  }
}
