/**
 * Who decides that an identity is verified: the application's verdict on a response to a fresh, issued
 * challenge, and nothing else a client can send.
 */
module AuthVerdicts {
  import opened Bytes
  import opened PathNames
  import opened Traces
  import opened Session
  import opened Dispatch
  import opened ServerInvariant
  import opened Outcomes
  import opened ServerRuns
  import opened SessionLog

  /** Identities accepted so far, in order. */
  function Verdicts(log: Log): Trace<seq<byte>> {
    match log
    case Start => Start
    case Then(before, e) => if e.Verified? then Then(Verdicts(before), e.id) else Verdicts(before)
  }

  // ---------------------------------------------------------------- a response

  /** A Twrite to an auth fid. */
  predicate Responds(x: Session, msg: seq<byte>) {
    |msg| >= 23 && msg[4] == TWRITE && var i := FindFid(x.fids, U32(msg, 7)); i < |x.fids| && x.fids[i].isAuth
  }

  function SlotOf(x: Session, msg: seq<byte>): nat
    requires Responds(x, msg)
  {
    x.fids[FindFid(x.fids, U32(msg, 7))].authIdx
  }

  /** The response may be put to the application: its bytes are there, of one of the two known sizes, the
      challenge was read and is at most a minute old, and there is someone to ask. */
  predicate Judgeable(cfg: Config, x: Session, msg: seq<byte>, env: Env) {
    && Responds(x, msg) && |msg| >= 23 + U32(msg, 19)
    && var j := SlotOf(x, msg); AuthLive(x.auths, j) && Fresh(cfg, x.auths[j], U32(msg, 19), env)
  }

  /** The application is shown the identity and the challenge of the slot, the signature from the first 64
      bytes of the response and the public key from the rest. */
  predicate SaysYes(a: AuthSlot, msg: seq<byte>, env: Env)
    requires |msg| >= 23 && |msg| >= 23 + U32(msg, 19) && U32(msg, 19) >= 64
  {
    env.verifies(a.identity, msg[87..23 + U32(msg, 19)], msg[23..87], a.challenge)
  }

  predicate Fresh(cfg: Config, a: AuthSlot, count: nat, env: Env) {
    && cfg.auth && cfg.canVerify && (count == 96 || count == 129)
    && a.issued && (env.now - a.time) % MOD64 <= 60000
  }

  predicate Accepts(cfg: Config, x: Session, msg: seq<byte>, env: Env) {
    Judgeable(cfg, x, msg, env) && SaysYes(x.auths[SlotOf(x, msg)], msg, env)
  }

  /** What the verdict makes of the session: d is the outcome of a response on entry i. */
  predicate Verdict(cfg: Config, x: Session, i: nat, data: seq<byte>, env: Env, d: Done)
    requires i < |x.fids|
  {
    var j := x.fids[i].authIdx;
    var put := AuthLive(x.auths, j) && Fresh(cfg, x.auths[j], |data|, env);
    if put && env.verifies(x.auths[j].identity, data[64..], data[..64], x.auths[j].challenge) then
      && d.body == Rwrite(|data|) && d.x.auths == x.auths[j := x.auths[j].(authenticated := true)]
      && d.x.log == Then(x.log, Verified(x.auths[j].identity))
    else d.x == x && d.body.Rerror? && (put ==> d.body == Rerror(AuthFailed))
  }

  lemma Judged(cfg: Config, x: Session, i: nat, data: seq<byte>, env: Env)
    requires i < |x.fids|
    ensures Verdict(cfg, x, i, data, env, AuthWrite(cfg, x, i, data, env))
  {
    var j := x.fids[i].authIdx;
    if AuthLive(x.auths, j) && Fresh(cfg, x.auths[j], |data|, env) && Verifies(env, x.auths[j], data) {
      JudgedYes(cfg, x, i, data, env);
    } else {
      JudgedNo(cfg, x, i, data, env);
    }
  }

  lemma JudgedNo(cfg: Config, x: Session, i: nat, data: seq<byte>, env: Env)
    requires i < |x.fids|
    requires var j := x.fids[i].authIdx;
             !(AuthLive(x.auths, j) && Fresh(cfg, x.auths[j], |data|, env) && Verifies(env, x.auths[j], data))
    ensures var d, j := AuthWrite(cfg, x, i, data, env), x.fids[i].authIdx;
            && d.x == x && d.body.Rerror?
            && (AuthLive(x.auths, j) && Fresh(cfg, x.auths[j], |data|, env) ==> d.body == Rerror(AuthFailed))
  {
  }

  lemma JudgedYes(cfg: Config, x: Session, i: nat, data: seq<byte>, env: Env)
    requires i < |x.fids| && AuthLive(x.auths, x.fids[i].authIdx)
    requires Fresh(cfg, x.auths[x.fids[i].authIdx], |data|, env) && Verifies(env, x.auths[x.fids[i].authIdx], data)
    ensures var d, j := AuthWrite(cfg, x, i, data, env), x.fids[i].authIdx;
            && d.body == Rwrite(|data|) && d.x.auths == x.auths[j := x.auths[j].(authenticated := true)]
            && d.x.log == Then(x.log, Verified(x.auths[j].identity))
  {
    var a := x.auths[x.fids[i].authIdx];
    RenameQuiet(Accept(x, x.fids[i].authIdx), i, a.identity);
  }

  lemma RenameQuiet(x: Session, i: nat, name: seq<byte>)
    requires i < |x.fids|
    ensures Rename(x, i, name).auths == x.auths && Rename(x, i, name).log == x.log
  {
  }

  lemma AuthWritten(cfg: Config, x: Session, msg: seq<byte>, env: Env)
    requires Responds(x, msg)
    ensures var d, i := HandleTwrite(cfg, x, msg, env), FindFid(x.fids, U32(msg, 7));
            if |msg| - 23 < U32(msg, 19) then d == Fail(x, MalformedTwrite)
            else d == AuthWrite(cfg, x, i, msg[23..23 + U32(msg, 19)], env)
  {
  }

  lemma ResponseJudgedOn(cfg: Config, x: Session, msg: seq<byte>, env: Env)
    requires Responds(x, msg) && |msg| >= 23 + U32(msg, 19)
    ensures var d, j, n := HandleTwrite(cfg, x, msg, env), SlotOf(x, msg), U32(msg, 19);
            if Accepts(cfg, x, msg, env) then
              && d.body == Rwrite(n) && d.x.auths == x.auths[j := x.auths[j].(authenticated := true)]
              && d.x.log == Then(x.log, Verified(x.auths[j].identity))
            else d.x == x && d.body.Rerror? && (Judgeable(cfg, x, msg, env) ==> d.body == Rerror(AuthFailed))
  {
    var n := U32(msg, 19);
    var data := msg[23..23 + n];
    AuthWritten(cfg, x, msg, env);
    Judged(cfg, x, FindFid(x.fids, U32(msg, 7)), data, env);
    if n >= 64 {
      assert data[64..] == msg[87..23 + n] && data[..64] == msg[23..87];
    }
  }

  /** The application's yes makes the slot authenticated, is answered with the count, and is the one event
      on record. Its no, or a response that is not put to it, changes nothing and is answered with an error. */
  lemma ResponseJudged(cfg: Config, s: State, msg: seq<byte>, env: Env)
    requires ConfigOk(cfg) && HeaderOk(msg) && Responds(s.x, msg)
    ensures var s' := Process(cfg, s, msg, env);
            if Accepts(cfg, s.x, msg, env) then
              var j := SlotOf(s.x, msg);
              && AnsweredBy(s, s', msg, Rwrite(U32(msg, 19)))
              && s'.x.auths == s.x.auths[j := s.x.auths[j].(authenticated := true)]
              && s'.x.log == Then(s.x.log, Verified(s.x.auths[j].identity))
            else s'.x == s.x && Rejected(s, s', msg)
    ensures Judgeable(cfg, s.x, msg, env) && !SaysYes(s.x.auths[SlotOf(s.x, msg)], msg, env) ==>
              AnsweredBy(s, Process(cfg, s, msg, env), msg, Rerror(AuthFailed))
  {
    var d := HandleTwrite(cfg, s.x, msg, env);
    PlainDispatched(cfg, s, msg, env, msg);
    AuthWritten(cfg, s.x, msg, env);
    if |msg| >= 23 + U32(msg, 19) {
      ResponseJudgedOn(cfg, s.x, msg, env);
    }
    Sent(cfg, s, msg, d);
  }

  // ---------------------------------------------------------------- everything else

  /** No slot is authenticated that was not, and none changes its identity. */
  predicate NoneGained(a: seq<AuthSlot>, b: seq<AuthSlot>) {
    && |a| == |b|
    && forall j :: 0 <= j < |b| && b[j].used && b[j].authenticated ==>
         a[j].used && a[j].authenticated && a[j].identity == b[j].identity
  }

  predicate Unjudged(x: Session, y: Session) { NoneGained(x.auths, y.auths) && Verdicts(y.log) == Verdicts(x.log) }

  lemma {:induction false} AnameUnjudged(cfg: Config, env: Env, fid: nat, names: seq<seq<byte>>, k: nat, node: nat,
                                         log: Log)
    ensures Verdicts(WalkAname(cfg, env, fid, names, k, node, log).log) == Verdicts(log)
    decreases |names|
  {
    if |names| > 0 && WalkAnswer(env, k) != 0 {
      AnameUnjudged(cfg, env, fid, names[1..], k + 1, WalkAnswer(env, k),
                    Drop(cfg, node, env.root, Then(log, FsWalk(fid, node, names[0]))));
    }
  }

  lemma {:induction false} NamesUnjudged(j: WalkJob, i: nat, off: nat, node: nat, qids: seq<Qid>, log: Log)
    requires i <= j.nw
    ensures Verdicts(WalkNames(j, i, off, node, qids, log).log) == Verdicts(log)
    decreases j.nw - i
  {
    if i < j.nw && !Cut(j.msg, off) && WalkAnswer(j.env, i) != 0 {
      var next := WalkAnswer(j.env, i);
      NamesUnjudged(j, i + 1, off + 2 + U16(j.msg, off), next, qids + [j.env.qid(next)],
                    Drop(j.cfg, node, j.start, Then(log, FsWalk(j.fid, node, NameAt(j.msg, off)))));
    }
  }

  lemma {:induction false} ResetUnjudged(cfg: Config, fids: seq<FidEntry>, n: nat, log: Log)
    requires n <= |fids|
    ensures Verdicts(ResetClunks(cfg, fids, n, log)) == Verdicts(log)
  {
    if n > 0 {
      ResetUnjudged(cfg, fids, n - 1, log);
    }
  }

  lemma {:induction false} CleanupUnjudged(cfg: Config, x: Session, n: nat)
    requires n <= |x.fids|
    ensures Unjudged(x, CleanupFids(cfg, x, n))
  {
    if n > 0 {
      CleanupUnjudged(cfg, x, n - 1);
    }
  }

  lemma AttachUnjudged(cfg: Config, x: Session, msg: seq<byte>, env: Env)
    requires |msg| >= 15
    ensures Unjudged(x, HandleTattach(cfg, x, msg, env).x)
  {
    var fid, received := U32(msg, 7), AttachUname(msg, env);
    var a, k := AttachAuthority(cfg, x, U32(msg, 11), received), AllocAt(x.fids, fid);
    if !a.Denied? && k < |x.fids| {
      var uname := if a.Authentic? then a.id else received;
      var x1 := AttachRoot(x, fid, k, uname, a.Authentic?, env.root);
      DescendUnjudged(cfg, x1, fid, k, AttachAname(msg, |uname|), env);
    }
  }

  lemma DescendUnjudged(cfg: Config, x: Session, fid: nat, k: nat, aname: seq<byte>, env: Env)
    requires k < |x.fids|
    ensures Unjudged(x, Descend(cfg, x, fid, k, aname, env).x)
  {
    AnameUnjudged(cfg, env, fid, Components(aname), 0, env.root, x.log);
    var y := x.(log := WalkAname(cfg, env, fid, Components(aname), 0, env.root, x.log).log);
    FreedUnjudged(x, fid);
    FreedUnjudged(y, fid);
  }

  lemma FreedUnjudged(x: Session, fid: nat)
    ensures Unjudged(x, FreeFid(x, fid)) && FreeFid(x, fid).log == x.log
  {
  }

  lemma WalkUnjudged(cfg: Config, x: Session, msg: seq<byte>, env: Env)
    requires |msg| >= 17
    ensures Unjudged(x, HandleTwalk(cfg, x, msg, env).x)
  {
    var fid, nw := U32(msg, 7), U16(msg, 15);
    var i := FindFid(x.fids, fid);
    if i < |x.fids| && !x.fids[i].isOpen && nw <= MAX_WELEM {
      var node := x.fids[i].node;
      NamesUnjudged(WalkJob(cfg, msg, env, fid, node, nw), 0, 17, node, [], Then(x.log, Walks(fid)));
    }
  }

  lemma WriteUnjudged(cfg: Config, x: Session, msg: seq<byte>, env: Env)
    requires !Accepts(cfg, x, msg, env) && |msg| >= 7 && msg[4] == TWRITE
    ensures Unjudged(x, HandleTwrite(cfg, x, msg, env).x)
  {
    if Responds(x, msg) {
      AuthWritten(cfg, x, msg, env);
      if |msg| >= 23 + U32(msg, 19) {
        ResponseJudgedOn(cfg, x, msg, env);
      }
    }
  }

  lemma ReadUnjudged(cfg: Config, s: State, msg: seq<byte>, env: Env)
    requires |msg| >= 7 && |s.reqs| > 0
    ensures Unjudged(s.x, HandleTread(cfg, s, msg, env).x)
  {
    ReadTouches(cfg, s, msg, env);
  }

  lemma VersionUnjudged(cfg: Config, s: State, msg: seq<byte>, env: Env)
    requires |msg| >= 7 && |s.reqs| > 0
    ensures Unjudged(s.x, HandleTversion(cfg, s, msg, env).x)
  {
    ResetUnjudged(cfg, s.x.fids, |s.x.fids|, Then(s.x.log, Reset));
  }

  lemma AuthUnjudged(cfg: Config, x: Session, msg: seq<byte>, env: Env)
    requires |msg| >= 11
    ensures Unjudged(x, HandleTauth(cfg, x, msg, env).x)
  {
  }

  lemma PermissionUnjudged(cfg: Config, x: Session, e: FidEntry, mode: nat, env: Env)
    ensures Unjudged(x, CheckPermission(cfg, x, e, mode, env).x)
  {
  }

  lemma OpenUnjudged(cfg: Config, x: Session, msg: seq<byte>, env: Env)
    requires |msg| >= 12
    ensures Unjudged(x, HandleTopen(cfg, x, msg, env).x)
  {
  }

  lemma CreateUnjudged(cfg: Config, x: Session, msg: seq<byte>, env: Env)
    ensures Unjudged(x, HandleTcreate(cfg, x, msg, env).x)
  {
    if |msg| >= 13 && |msg| >= 13 + U16(msg, 11) + 5 {
      var i := FindFid(x.fids, U32(msg, 7));
      if i < |x.fids| {
        PermissionUnjudged(cfg, x, x.fids[i], OWRITE, env);
      }
    }
  }

  lemma RemoveUnjudged(cfg: Config, x: Session, msg: seq<byte>, env: Env)
    requires |msg| >= 11
    ensures Unjudged(x, HandleTremove(cfg, x, msg, env).x)
  {
  }

  lemma FreeUnjudged(cfg: Config, x: Session, fid: nat)
    ensures Unjudged(x, ClunkFid(cfg, x, fid))
  {
  }

  lemma ClunkUnjudged(cfg: Config, s: State, msg: seq<byte>)
    requires |msg| >= 11 && |s.reqs| > 0
    ensures Unjudged(s.x, HandleTclunk(cfg, s, msg).x)
  {
    CancelKeeps(cfg, s, OfFid(U32(msg, 7)), 0);
    FreeUnjudged(cfg, s.x, U32(msg, 7));
  }

  lemma HandlerUnjudged(cfg: Config, s: State, msg: seq<byte>, env: Env)
    requires WellFormed(msg) && |s.reqs| > 0 && !Accepts(cfg, s.x, msg, env)
    ensures Unjudged(s.x, Handle1(cfg, s, msg, env).x)
  {
    var t := msg[4];
    if t == TVERSION { VersionUnjudged(cfg, s, msg, env); }
    else if t == TAUTH { AuthUnjudged(cfg, s.x, msg, env); }
    else if t == TATTACH { AttachUnjudged(cfg, s.x, msg, env); }
    else if t == TFLUSH { CancelKeeps(cfg, s, OfTag(U16(msg, 7)), 0); }
    else if t == TWALK { WalkUnjudged(cfg, s.x, msg, env); }
    else if t == TOPEN { OpenUnjudged(cfg, s.x, msg, env); }
    else if t == TCREATE { CreateUnjudged(cfg, s.x, msg, env); }
    else if t == TREAD { ReadUnjudged(cfg, s, msg, env); }
    else if t == TWRITE { WriteUnjudged(cfg, s.x, msg, env); }
    else if t == TCLUNK { ClunkUnjudged(cfg, s, msg); }
    else if t == TREMOVE { RemoveUnjudged(cfg, s.x, msg, env); }
  }

  /** Nothing but an accepted response puts an identity on record or makes a slot authenticated. */
  lemma OnlyAcceptedVerify(cfg: Config, s: State, msg: seq<byte>, env: Env)
    requires HeaderOk(msg) ==> !Accepts(cfg, s.x, msg, env)
    ensures Unjudged(s.x, Process(cfg, s, msg, env).x)
  {
    if HeaderOk(msg) {
      HandlerUnjudged(cfg, Receive(s, msg), Seen(msg, env), env);
    }
  }

  // ---------------------------------------------------------------- on a run

  lemma {:induction false} VerdictsGrow(a: Log, b: Log)
    requires Reaches(a, b)
    ensures Length(Verdicts(a)) <= Length(Verdicts(b))
  {
    if a != b {
      VerdictsGrow(a, b.before);
    }
  }

  lemma {:induction false} ComesAfter(a: Log, v: Log, b: Log)
    requires Reaches(a, b) && Reaches(v, b) && !Reaches(v, a)
    ensures v.Then? && Reaches(a, v.before)
  {
    if v == b {
      assert a != b;
    } else {
      assert a != b;
      ComesAfter(a, v, b.before);
    }
  }

  lemma NoVerdict(a: Log, v: Log, b: Log)
    requires Reaches(a, b) && Reaches(v, b) && !Reaches(v, a) && Verdicts(a) == Verdicts(b)
    ensures v.Then? && !v.last.Verified?
  {
    ComesAfter(a, v, b);
    VerdictsGrow(a, v.before);
    VerdictsGrow(v, b);
  }

  /** Action a is the dispatch of a response that the application accepts, for the identity its challenge
      was issued to, and v is the log it leaves. */
  predicate Gives(cfg: Config, w: World, a: Action, v: Log) {
    && a.DispatchLeave? && w.disp.Some?
    && var f, x := w.disp.value, w.s.x;
       && HeaderOk(f.msg) && Accepts(cfg, x, f.msg, f.env)
       && v == Then(x.log, Verified(x.auths[SlotOf(x, f.msg)].identity))
  }

  predicate Given(cfg: Config, w: World, acts: seq<Action>, v: Log)
    requires Feasible(cfg, w, acts)
    decreases |acts|
  {
    |acts| > 0 && (Gives(cfg, w, acts[0], v) || Given(cfg, Apply(cfg, w, acts[0]), acts[1..], v))
  }

  lemma DispatchGives(cfg: Config, w: World, v: Log)
    requires ConfigOk(cfg) && Enabled(cfg, w, DispatchLeave)
    requires var f := w.disp.value; Reaches(v, Process(cfg, w.s, f.msg, f.env).x.log) && !Reaches(v, w.s.x.log)
    ensures v.Then? && (v.last.Verified? ==> Gives(cfg, w, DispatchLeave, v))
  {
    var f := w.disp.value;
    ProcessGrows(cfg, w.s, f.msg, f.env);
    if HeaderOk(f.msg) && Accepts(cfg, w.s.x, f.msg, f.env) {
      ResponseJudged(cfg, w.s, f.msg, f.env);
    } else {
      OnlyAcceptedVerify(cfg, w.s, f.msg, f.env);
      NoVerdict(w.s.x.log, v, Process(cfg, w.s, f.msg, f.env).x.log);
    }
  }

  lemma CleanupGives(cfg: Config, s: State, v: Log)
    requires Reaches(v, Cleanup(cfg, s).x.log) && !Reaches(v, s.x.log)
    ensures v.Then? && !v.last.Verified?
  {
    CleanupExtends(cfg, s.x, |s.x.fids|);
    CleanupUnjudged(cfg, s.x, |s.x.fids|);
    NoVerdict(s.x.log, v, Cleanup(cfg, s).x.log);
  }

  lemma StepGives(cfg: Config, w: World, a: Action, v: Log)
    requires ConfigOk(cfg) && Enabled(cfg, w, a)
    requires Reaches(v, Apply(cfg, w, a).s.x.log) && !Reaches(v, w.s.x.log)
    ensures v.Then? && (v.last.Verified? ==> Gives(cfg, w, a, v))
  {
    if a.DispatchLeave? {
      DispatchGives(cfg, w, v);
    } else if a.CleanFinish? {
      CleanupGives(cfg, w.s, v);
    }
  }

  /** On every run, each identity on record was put there by the dispatch of an accepted response. */
  lemma {:induction false} VerdictsWereGiven(cfg: Config, w: World, acts: seq<Action>, v: Log)
    requires ConfigOk(cfg) && Feasible(cfg, w, acts) && v.Then? && v.last.Verified?
    requires Reaches(v, Run(cfg, w, acts).s.x.log) && !Reaches(v, w.s.x.log)
    ensures Given(cfg, w, acts, v)
    decreases |acts|
  {
    var w1 := Apply(cfg, w, acts[0]);
    if Reaches(v, w1.s.x.log) {
      StepGives(cfg, w, acts[0], v);
    } else {
      VerdictsWereGiven(cfg, w1, acts[1..], v);
    }
  }
}
