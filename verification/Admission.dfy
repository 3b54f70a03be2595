/**
 * Who gets a fid, and what identity it shows: the challenge a Tauth opens, the attach that a completed
 * handshake vouches for, and the walk that passes an identity on.
 */
module Admission {
  import opened Bytes
  import opened PathNames
  import opened Session
  import opened SessionInvariant
  import opened Dispatch
  import opened ServerInvariant
  import opened Outcomes
  import opened AttachPaths

  // ---------------------------------------------------------------- entries

  predicate RoomFor(x: Session, fid: nat) {
    FindFid(x.fids, fid) == |x.fids| && exists k :: 0 <= k < |x.fids| && !x.fids[k].inUse
  }

  lemma RoomIsAlloc(x: Session, fid: nat)
    ensures RoomFor(x, fid) <==> AllocAt(x.fids, fid) < |x.fids|
  {
  }

  /** Entry k, unused before, is now bound to fid; every other entry is as it was. */
  predicate Gains(x: Session, y: Session, k: nat, fid: nat) {
    && k < |x.fids| == |y.fids| && !x.fids[k].inUse && y.fids[k].inUse && y.fids[k].fid == fid
    && forall j :: 0 <= j < |x.fids| && j != k ==> y.fids[j] == x.fids[j]
  }

  /** The same fids are bound, to the same. */
  predicate GainsNone(x: Session, y: Session) {
    && |x.fids| == |y.fids|
    && forall j :: 0 <= j < |x.fids| ==>
         y.fids[j].inUse == x.fids[j].inUse && (x.fids[j].inUse ==> y.fids[j] == x.fids[j])
  }

  lemma TakenBack(x: Session, y: Session, k: nat, fid: nat)
    requires Gains(x, y, k, fid) && FindFid(x.fids, fid) == |x.fids|
    ensures GainsNone(x, FreeFid(y, fid))
  {
    assert FindFid(y.fids, fid) == k;
  }

  // ---------------------------------------------------------------- Tauth

  /** A name of 1 to 63 bytes on a server that authenticates, with an entry and a slot to spare. */
  predicate Challenges(cfg: Config, x: Session, m: seq<byte>, env: Env)
    requires |m| >= 11
  {
    && cfg.auth && 0 < |AuthUname(m, env)| < NAME_SIZE && RoomFor(x, U32(m, 7))
    && exists j :: 0 <= j < |x.auths| && !x.auths[j].used
  }

  predicate ChallengeSet(x: Session, y: Session, k: nat, j: nat, uname: seq<byte>, env: Env) {
    && k < |y.fids| && y.fids[k].isAuth && y.fids[k].authIdx == j
    && j < |x.auths| && !x.auths[j].used
    && y.auths == x.auths[j := AuthSlot(true, CStr(uname), env.challenge, env.now, false, false)]
  }

  lemma AuthDone(cfg: Config, x: Session, m: seq<byte>, env: Env)
    requires |m| >= 11
    ensures var d, afid := HandleTauth(cfg, x, m, env), U32(m, 7);
            if Challenges(cfg, x, m, env) then
              && d.body == Rauth(Qid(8, 0, afid))
              && exists k, j :: 0 <= k < |x.fids| && 0 <= j < |x.auths| && Gains(x, d.x, k, afid)
                                && ChallengeSet(x, d.x, k, j, AuthUname(m, env), env)
            else d.body.Rerror? && GainsNone(x, d.x) && d.x.auths == x.auths
  {
    var d, afid := HandleTauth(cfg, x, m, env), U32(m, 7);
    var k, j := AllocAt(x.fids, afid), FreeAuth(x.auths);
    RoomIsAlloc(x, afid);
    if Challenges(cfg, x, m, env) {
      assert Gains(x, d.x, k, afid) && ChallengeSet(x, d.x, k, j, AuthUname(m, env), env);
    } else if k < |x.fids| {
      TakenBack(x, AllocFid(x, afid, k), k, afid);
    }
  }

  /** A Tauth is answered with the auth qid, and binds its afid to a fresh, unissued and unproven challenge
      for the claimed name, exactly when there is one to bind; otherwise it is refused and binds nothing. */
  lemma AuthOutcome(cfg: Config, s: State, msg: seq<byte>, env: Env, m: seq<byte>)
    requires ConfigOk(cfg) && HeaderOk(msg) && msg[4] == TAUTH && m == Seen(msg, env)
    ensures var s', afid := Process(cfg, s, msg, env), U32(m, 7);
            s'.pend == s.pend &&
            if Challenges(cfg, s.x, m, env) then
              && AnsweredBy(s, s', msg, Rauth(Qid(8, 0, afid)))
              && exists k, j :: 0 <= k < |s.x.fids| && 0 <= j < |s.x.auths| && Gains(s.x, s'.x, k, afid)
                                && ChallengeSet(s.x, s'.x, k, j, AuthUname(m, env), env)
            else Rejected(s, s', msg) && GainsNone(s.x, s'.x) && s'.x.auths == s.x.auths
  {
    Dispatched(cfg, s, msg, env, m);
    AuthDone(cfg, s.x, m, env);
    Sent(cfg, s, msg, HandleTauth(cfg, s.x, m, env));
  }

  // ---------------------------------------------------------------- Tattach

  /** Afid is an auth fid whose handshake is complete. */
  predicate Vouched(x: Session, afid: nat) {
    && afid != NOFID
    && var a := FindFid(x.fids, afid);
       && a < |x.fids| && x.fids[a].isAuth && AuthLive(x.auths, x.fids[a].authIdx)
       && x.auths[x.fids[a].authIdx].authenticated
  }

  function VouchedFor(x: Session, afid: nat): seq<byte>
    requires Vouched(x, afid)
  {
    x.auths[x.fids[FindFid(x.fids, afid)].authIdx].identity
  }

  /** A completed handshake admits its own identity, named or not; without one, guests are admitted unless
      authentication is required. */
  predicate Admitted(cfg: Config, x: Session, afid: nat, uname: seq<byte>) {
    if Vouched(x, afid) then uname == [] || uname == VouchedFor(x, afid) else !(cfg.auth && cfg.authRequired)
  }

  lemma AuthorityMeans(cfg: Config, x: Session, afid: nat, uname: seq<byte>)
    ensures var a := AttachAuthority(cfg, x, afid, uname);
            && (Admitted(cfg, x, afid, uname) <==> !a.Denied?)
            && (Admitted(cfg, x, afid, uname) ==>
                  if Vouched(x, afid) then a == Authentic(VouchedFor(x, afid)) else a == Guest)
  {
  }

  predicate PoolFull(names: seq<Uname>, id: seq<byte>) {
    forall i :: 0 <= i < |names| ==> names[i].refs > 0 && CStr(names[i].text) != id
  }

  lemma InternFails(names: seq<Uname>, id: seq<byte>)
    requires |id| < NAME_SIZE && 0 !in id && |names| <= 255 && Intern(names, id).idx == POOL_NONE
    ensures PoolFull(names, id)
  {
    forall i | 0 <= i < |names| ensures CStr(names[i].text) != id {
      assert !Holds(names[i], id);
      if CStr(names[i].text) == id {
        CStrOfClean(id);
        SameUpToMeansSameCStr(names[i].text, id);
      }
    }
  }

  /** The identity entry k shows after it was bound to the root under a name. */
  lemma RootIdentity(x: Session, fid: nat, k: nat, uname: seq<byte>, authentic: bool, root: nat)
    requires SessionOk(x) && k < |x.fids| && k == AllocAt(x.fids, fid)
    requires authentic ==> |uname| < NAME_SIZE && 0 !in uname
    ensures var y := AttachRoot(x, fid, k, uname, authentic, root); var shown := FidIdentity(y, y.fids[k]);
            if authentic then shown == uname || (shown == [] && PoolFull(x.names, uname)) else shown == []
  {
    forall i | 0 <= i < |x.names| ensures x.names[i].refs < 255 {
      HoldersSlack(x.fids, k, i);
    }
    InternMeans(x.names, uname);
    if authentic {
      CStrOfClean(uname);
      if Intern(x.names, uname).idx == POOL_NONE {
        InternFails(x.names, uname);
      }
    }
  }

  /** What the new fid of an attach shows: the identity vouched for, or nothing for a guest. */
  predicate Shows(x: Session, y: Session, k: nat, afid: nat)
    requires k < |y.fids|
  {
    var shown := FidIdentity(y, y.fids[k]);
    if Vouched(x, afid) then shown == VouchedFor(x, afid) || (shown == [] && PoolFull(x.names, VouchedFor(x, afid)))
    else shown == []
  }

  /** The node an aname leads to from the root, if it leads anywhere. */
  function LeadsTo(env: Env, aname: seq<byte>): nat {
    var nodes := NodesOnPath(env, aname);
    if env.root == 0 || |nodes| < |Components(aname)| then 0
    else if |nodes| == 0 then env.root else nodes[|nodes| - 1]
  }

  lemma DescendDone(cfg: Config, x: Session, y: Session, fid: nat, k: nat, aname: seq<byte>, env: Env)
    requires Gains(x, y, k, fid) && FindFid(x.fids, fid) == |x.fids|
    ensures var d, node := Descend(cfg, y, fid, k, aname, env), LeadsTo(env, aname);
            if node != 0 then
              && d.body == Rattach(env.qid(node)) && Gains(x, d.x, k, fid)
              && d.x.fids[k] == y.fids[k].(node := node) && d.x.names == y.names
            else d.body.Rerror? && GainsNone(x, d.x)
  {
    if env.root == 0 {
      TakenBack(x, y, k, fid);
    } else {
      AnameEnds(cfg, env, fid, aname, y.log);
      var w := WalkAname(cfg, env, fid, Components(aname), 0, env.root, y.log);
      if w.node == 0 {
        TakenBack(x, y.(log := w.log), k, fid);
      }
    }
  }

  lemma AttachDone(cfg: Config, x: Session, m: seq<byte>, env: Env)
    requires |m| >= 15 && SessionOk(x)
    ensures var d, fid, afid := HandleTattach(cfg, x, m, env), U32(m, 7), U32(m, 11);
            if !Admitted(cfg, x, afid, AttachUname(m, env)) || !RoomFor(x, fid) then d.body.Rerror? && d.x == x
            else
              var node := LeadsTo(env, AnameTaken(cfg, x, m, env));
              if node == 0 then d.body.Rerror? && GainsNone(x, d.x)
              else d.body == Rattach(env.qid(node))
                   && exists k :: 0 <= k < |x.fids| && Gains(x, d.x, k, fid) && d.x.fids[k].node == node
                                  && Shows(x, d.x, k, afid)
  {
    var fid, afid, received := U32(m, 7), U32(m, 11), AttachUname(m, env);
    var a, k := AttachAuthority(cfg, x, afid, received), AllocAt(x.fids, fid);
    AuthorityMeans(cfg, x, afid, received);
    RoomIsAlloc(x, fid);
    if !a.Denied? && k < |x.fids| {
      var uname := MadeUnder(cfg, x, m, env);
      var y := AttachRoot(x, fid, k, uname, a.Authentic?, env.root);
      RootBound(x, fid, k, uname, a.Authentic?, env.root);
      RootIdentity(x, fid, k, uname, a.Authentic?, env.root);
      DescendDone(cfg, x, y, fid, k, AnameTaken(cfg, x, m, env), env);
      var d := HandleTattach(cfg, x, m, env);
      assert d == Descend(cfg, y, fid, k, AnameTaken(cfg, x, m, env), env);
      if LeadsTo(env, AnameTaken(cfg, x, m, env)) != 0 {
        assert FidIdentity(d.x, d.x.fids[k]) == FidIdentity(y, y.fids[k]);
        assert Gains(x, d.x, k, fid) && Shows(x, d.x, k, afid);
      }
    }
  }

  /** A Tattach binds its fid exactly when its authority is good, there is room and the aname leads to a
      node. The fid stands at that node and shows the identity the afid was proven for; a guest's fid shows
      none. Otherwise it is refused and binds nothing. */
  lemma AttachOutcome(cfg: Config, s: State, msg: seq<byte>, env: Env, m: seq<byte>)
    requires ConfigOk(cfg) && HeaderOk(msg) && msg[4] == TATTACH && m == Seen(msg, env) && SessionOk(s.x)
    ensures var s', fid, afid := Process(cfg, s, msg, env), U32(m, 7), U32(m, 11);
            s'.pend == s.pend &&
            if !Admitted(cfg, s.x, afid, AttachUname(m, env)) || !RoomFor(s.x, fid) then
              Rejected(s, s', msg) && s'.x == s.x
            else
              var node := LeadsTo(env, AnameTaken(cfg, s.x, m, env));
              if node == 0 then Rejected(s, s', msg) && GainsNone(s.x, s'.x)
              else AnsweredBy(s, s', msg, Rattach(env.qid(node)))
                   && exists k :: 0 <= k < |s.x.fids| && Gains(s.x, s'.x, k, fid) && s'.x.fids[k].node == node
                                  && Shows(s.x, s'.x, k, afid)
  {
    Dispatched(cfg, s, msg, env, m);
    AttachDone(cfg, s.x, m, env);
    Sent(cfg, s, msg, HandleTattach(cfg, s.x, m, env));
  }
}
