/**
 * Opening, creating, removing, writing and stat: when a request succeeds, what it then leaves behind and
 * answers, and that it changes no table otherwise.
 */
module FileAccess {
  import opened Bytes
  import opened Traces
  import opened Session
  import opened SessionInvariant
  import opened Dispatch
  import opened ServerInvariant
  import opened Outcomes

  // ---------------------------------------------------------------- the policy

  /** There is a policy and the filesystem can tell it what is asked about. */
  predicate Policed(cfg: Config) { cfg.auth && cfg.canCheckPerm && cfg.canPath }

  predicate Allowed(cfg: Config, x: Session, e: FidEntry, mode: nat, env: Env) {
    Policed(cfg) ==> env.pathOk && env.permits(FidIdentity(x, e), e.node, mode)
  }

  /** The log once the policy, if there is one, has been asked about e. */
  function Consulted(cfg: Config, x: Session, e: FidEntry, env: Env): Log {
    if Policed(cfg) && env.pathOk then Then(x.log, CheckPerm(e.fid, FidIdentity(x, e))) else x.log
  }

  /** Of the tables nothing changed, and of the log no more than that the policy was asked. */
  predicate Untouched(cfg: Config, x: Session, y: Session, fid: nat, env: Env) {
    && y == x.(log := y.log)
    && (y.log == x.log
        || var i := FindFid(x.fids, fid); i < |x.fids| && y.log == Consulted(cfg, x, x.fids[i], env))
  }

  /** The mode the policy is asked about: that of the open, or writing. */
  function Wanted(m: seq<byte>): nat
    requires |m| >= 11 && (m[4] == TOPEN ==> |m| >= 12)
  {
    if m[4] == TOPEN then m[11] else OWRITE
  }

  /** The entry a request names, if it is bound and has a node. */
  predicate Names(x: Session, fid: nat) { var i := FindFid(x.fids, fid); i < |x.fids| && x.fids[i].node != 0 }

  function Entry(x: Session, fid: nat): FidEntry
    requires Names(x, fid)
  {
    x.fids[FindFid(x.fids, fid)]
  }

  // ---------------------------------------------------------------- Topen

  predicate Opens(cfg: Config, x: Session, m: seq<byte>, env: Env)
    requires |m| >= 12
  {
    && Names(x, U32(m, 7)) && !Entry(x, U32(m, 7)).isOpen && env.rc.Ok?
    && Allowed(cfg, x, Entry(x, U32(m, 7)), m[11], env)
  }

  /** The offered unit leaves room for a Twrite or Rread header in a message and in a transport unit, and no
      larger one would. */
  predicate UnitFits(cfg: Config, msize: nat, mtu: int, u: nat) {
    var room := if msize != 0 then msize else cfg.maxMessage;
    && (u > 0 ==> u + 24 <= room && (mtu > 0 ==> u + 24 <= mtu % MOD32))
    && (u + 24 >= room || (mtu > 0 && u + 24 >= mtu % MOD32))
  }

  lemma OpenDone(cfg: Config, x: Session, m: seq<byte>, env: Env)
    requires |m| >= 12
    ensures var d, fid := HandleTopen(cfg, x, m, env), U32(m, 7); var i := FindFid(x.fids, fid);
            if Opens(cfg, x, m, env) then
              var e := x.fids[i]; var u := d.x.fids[i].iounit;
              && d.body == Ropen(env.qid(e.node), u) && UnitFits(cfg, x.msize, env.mtu, u)
              && d.x == x.(fids := x.fids[i := e.(isOpen := true, openMode := m[11], iounit := u)], log := d.x.log)
              && d.x.log == Then(Consulted(cfg, x, e, env), Opened(fid, m[11]))
            else Untouched(cfg, x, d.x, fid, env) && d.body.Rerror?
  {
  }

  /** A Topen succeeds exactly when the fid names a file that is not open, the policy allows the mode and the
      filesystem agrees. */
  lemma OpenOutcome(cfg: Config, s: State, msg: seq<byte>, env: Env, m: seq<byte>)
    requires ConfigOk(cfg) && HeaderOk(msg) && msg[4] == TOPEN && m == Seen(msg, env)
    ensures var s', fid := Process(cfg, s, msg, env), U32(m, 7); var i := FindFid(s.x.fids, fid);
            s'.pend == s.pend &&
            if Opens(cfg, s.x, m, env) then
              var e := s.x.fids[i]; var u := s'.x.fids[i].iounit;
              && AnsweredBy(s, s', msg, Ropen(env.qid(e.node), u)) && UnitFits(cfg, s.x.msize, env.mtu, u)
              && s'.x == s.x.(fids := s.x.fids[i := e.(isOpen := true, openMode := m[11], iounit := u)],
                              log := s'.x.log)
              && s'.x.log == Then(Consulted(cfg, s.x, e, env), Opened(fid, m[11]))
            else Untouched(cfg, s.x, s'.x, fid, env) && Rejected(s, s', msg)
  {
    PlainDispatched(cfg, s, msg, env, m);
    OpenDone(cfg, s.x, m, env);
    Sent(cfg, s, msg, HandleTopen(cfg, s.x, m, env));
  }

  // ---------------------------------------------------------------- Tcreate

  /** The name and what follows it, perm[4] and mode[1], are in the frame. */
  predicate WholeTcreate(m: seq<byte>) { |m| >= 13 && |m| >= 18 + U16(m, 11) }

  predicate Creates(cfg: Config, x: Session, m: seq<byte>, env: Env) {
    && WholeTcreate(m) && cfg.canCreate && Names(x, U32(m, 7)) && env.rc.Ok? && env.created != 0
    && Allowed(cfg, x, Entry(x, U32(m, 7)), OWRITE, env)
  }

  /** The create call reached the filesystem, which refused it. */
  predicate Attempted(cfg: Config, x: Session, y: Session, fid: nat, env: Env) {
    && y == x.(log := y.log) && Names(x, fid)
    && var e := Entry(x, fid);
       && Allowed(cfg, x, e, OWRITE, env) && !(env.rc.Ok? && env.created != 0)
       && y.log == Then(Consulted(cfg, x, e, env), FsCreate(fid, FidIdentity(x, e)))
  }

  lemma CreateDone(cfg: Config, x: Session, m: seq<byte>, env: Env)
    requires ConfigOk(cfg)
    ensures var d := HandleTcreate(cfg, x, m, env);
            if Creates(cfg, x, m, env) then
              var fid := U32(m, 7); var i, mode := FindFid(x.fids, fid), m[17 + U16(m, 11)]; var e := x.fids[i];
              && d.body == Rcreate(env.qid(env.created), 0)
              && d.x == x.(fids := x.fids[i := e.(node := env.created, iounit := 0, isOpen := true, openMode := mode)],
                           log := d.x.log)
              && d.x.log == Then(Then(Consulted(cfg, x, e, env), FsCreate(fid, FidIdentity(x, e))), Opened(fid, mode))
            else
              && d.body.Rerror?
              && (d.x == x || (|m| >= 13 && (Untouched(cfg, x, d.x, U32(m, 7), env)
                                             || Attempted(cfg, x, d.x, U32(m, 7), env))))
  {
  }

  /** A Tcreate succeeds exactly when it is whole, the fid names a node, the policy allows writing and the
      filesystem returns a node; the fid then stands, open, at that node. */
  lemma CreateOutcome(cfg: Config, s: State, msg: seq<byte>, env: Env)
    requires ConfigOk(cfg) && HeaderOk(msg) && msg[4] == TCREATE
    ensures var s' := Process(cfg, s, msg, env);
            s'.pend == s.pend &&
            if Creates(cfg, s.x, msg, env) then
              var fid := U32(msg, 7);
              var i, mode := FindFid(s.x.fids, fid), msg[17 + U16(msg, 11)];
              var e := s.x.fids[i]; var e' := e.(node := env.created, iounit := 0, isOpen := true, openMode := mode);
              && AnsweredBy(s, s', msg, Rcreate(env.qid(env.created), 0))
              && s'.x == s.x.(fids := s.x.fids[i := e'], log := s'.x.log)
              && s'.x.log == Then(Then(Consulted(cfg, s.x, e, env), FsCreate(fid, FidIdentity(s.x, e))),
                                  Opened(fid, mode))
            else
              && Rejected(s, s', msg)
              && (s'.x == s.x || (|msg| >= 13 && (Untouched(cfg, s.x, s'.x, U32(msg, 7), env)
                                                  || Attempted(cfg, s.x, s'.x, U32(msg, 7), env))))
  {
    PlainDispatched(cfg, s, msg, env, msg);
    CreateDone(cfg, s.x, msg, env);
    Sent(cfg, s, msg, HandleTcreate(cfg, s.x, msg, env));
  }

  // ---------------------------------------------------------------- Tremove

  predicate Removes(cfg: Config, x: Session, m: seq<byte>, env: Env)
    requires |m| >= 11
  {
    && cfg.canRemove && Names(x, U32(m, 7)) && env.rc.Ok?
    && Allowed(cfg, x, Entry(x, U32(m, 7)), OWRITE, env)
  }

  /** Fid is no longer bound; every other entry is as it was. */
  predicate Unbound(x: Session, y: Session, fid: nat) {
    var i := FindFid(x.fids, fid);
    && |y.fids| == |x.fids| && FindFid(y.fids, fid) == |y.fids|
    && forall k :: 0 <= k < |x.fids| && k != i ==> y.fids[k] == x.fids[k]
  }

  lemma FreeUnbinds(x: Session, fid: nat)
    requires Distinct(x.fids)
    ensures Unbound(x, FreeFid(x, fid), fid) && FreeFid(x, fid).log == x.log
  {
  }

  lemma RemoveDone(cfg: Config, x: Session, m: seq<byte>, env: Env)
    requires |m| >= 11 && Distinct(x.fids)
    ensures var d, fid := HandleTremove(cfg, x, m, env), U32(m, 7);
            if Removes(cfg, x, m, env) then
              d.body == Rremove && Unbound(x, d.x, fid) && d.x.log == Consulted(cfg, x, Entry(x, fid), env)
            else Untouched(cfg, x, d.x, fid, env) && d.body.Rerror?
  {
    var fid := U32(m, 7);
    if Removes(cfg, x, m, env) {
      FreeUnbinds(x.(log := Consulted(cfg, x, Entry(x, fid), env)), fid);
    }
  }

  /** A Tremove unbinds its fid exactly when the fid names a node, the policy allows writing and the
      filesystem removed it; a remove that fails keeps the fid. */
  lemma RemoveOutcome(cfg: Config, s: State, msg: seq<byte>, env: Env, m: seq<byte>)
    requires ConfigOk(cfg) && HeaderOk(msg) && msg[4] == TREMOVE && m == Seen(msg, env) && Distinct(s.x.fids)
    ensures var s', fid := Process(cfg, s, msg, env), U32(m, 7);
            s'.pend == s.pend &&
            if Removes(cfg, s.x, m, env) then
              && AnsweredBy(s, s', msg, Rremove) && Unbound(s.x, s'.x, fid)
              && s'.x.log == Consulted(cfg, s.x, Entry(s.x, fid), env)
            else Untouched(cfg, s.x, s'.x, fid, env) && Rejected(s, s', msg)
  {
    PlainDispatched(cfg, s, msg, env, m);
    RemoveDone(cfg, s.x, m, env);
    Sent(cfg, s, msg, HandleTremove(cfg, s.x, m, env));
  }

  // ---------------------------------------------------------------- a policy that says no

  /** The request got as far as the policy. */
  predicate Asks(cfg: Config, x: Session, m: seq<byte>) {
    && |m| >= 11 && Names(x, U32(m, 7))
    && (m[4] == TOPEN ==> |m| >= 12 && !Entry(x, U32(m, 7)).isOpen)
    && (m[4] == TCREATE ==> WholeTcreate(m) && cfg.canCreate)
    && (m[4] == TREMOVE ==> cfg.canRemove)
  }

  /** The policy's answer to a request of a client, on whatever fid it names. */
  predicate Refuses(x: Session, m: seq<byte>, env: Env)
    requires |m| >= 11 && (m[4] == TOPEN ==> |m| >= 12)
  {
    var i := FindFid(x.fids, U32(m, 7));
    !env.pathOk || (i < |x.fids| ==> !env.permits(FidIdentity(x, x.fids[i]), x.fids[i].node, Wanted(m)))
  }

  lemma RefusedDone(cfg: Config, x: Session, m: seq<byte>, env: Env)
    requires Policed(cfg) && WellFormed(m) && m[4] in {TOPEN, TCREATE, TREMOVE}
    requires |m| >= 11 ==> Refuses(x, m, env)
    ensures var d := Plain(cfg, x, m, env);
            && d.body.Rerror? && (Asks(cfg, x, m) ==> d.body == Rerror(PermissionDenied))
            && (d.x == x || (|m| >= 11 && Untouched(cfg, x, d.x, U32(m, 7), env)))
  {
  }

  /** With a policy that says no, or a path that cannot be had, a Topen, Tcreate or Tremove changes no table,
      reaches the filesystem with nothing, and is answered with one error: that of the policy, if the
      request was otherwise in order. */
  lemma PolicyIsObeyed(cfg: Config, s: State, msg: seq<byte>, env: Env, m: seq<byte>)
    requires ConfigOk(cfg) && Policed(cfg) && HeaderOk(msg) && msg[4] in {TOPEN, TCREATE, TREMOVE}
    requires m == Seen(msg, env) && (|m| >= 11 ==> Refuses(s.x, m, env))
    ensures var s' := Process(cfg, s, msg, env);
            && Rejected(s, s', msg) && s'.pend == s.pend
            && (Asks(cfg, s.x, m) ==> AnsweredBy(s, s', msg, Rerror(PermissionDenied)))
            && (s'.x == s.x || (|m| >= 11 && Untouched(cfg, s.x, s'.x, U32(m, 7), env)))
  {
    PlainDispatched(cfg, s, msg, env, m);
    RefusedDone(cfg, s.x, m, env);
    Sent(cfg, s, msg, Plain(cfg, s.x, m, env));
  }

  // ---------------------------------------------------------------- Twrite, Tstat

  /** A Twrite to a file that its fid may write. */
  predicate Writable(cfg: Config, x: Session, m: seq<byte>) {
    && |m| >= 23 && |m| >= 23 + U32(m, 19) && Names(x, U32(m, 7)) && cfg.canWrite
    && var e := Entry(x, U32(m, 7)); !e.isAuth && e.isOpen && e.openMode % 4 !in {OREAD, OEXEC}
  }

  lemma WriteDone(cfg: Config, x: Session, m: seq<byte>, env: Env)
    requires ConfigOk(cfg)
    requires |m| >= 23 ==> var i := FindFid(x.fids, U32(m, 7)); i < |x.fids| ==> !x.fids[i].isAuth
    ensures var d := HandleTwrite(cfg, x, m, env);
            if Writable(cfg, x, m) then
              && d.x == x.(log := Then(x.log, FsWrite(U32(m, 7), FidIdentity(x, Entry(x, U32(m, 7))))))
              && if env.rc.Ok? then d.body == Rwrite(env.rc.n) else d.body.Rerror?
            else d.x == x && d.body.Rerror?
  {
  }

  /** A Twrite that is no response on an auth fid reaches the filesystem once, exactly when the fid is open
      for writing, and reports what the filesystem said. */
  lemma WriteOutcome(cfg: Config, s: State, msg: seq<byte>, env: Env)
    requires ConfigOk(cfg) && HeaderOk(msg) && msg[4] == TWRITE
    requires |msg| >= 23 ==> var i := FindFid(s.x.fids, U32(msg, 7)); i < |s.x.fids| ==> !s.x.fids[i].isAuth
    ensures var s' := Process(cfg, s, msg, env);
            s'.pend == s.pend &&
            if Writable(cfg, s.x, msg) then
              && s'.x == s.x.(log := Then(s.x.log, FsWrite(U32(msg, 7), FidIdentity(s.x, Entry(s.x, U32(msg, 7))))))
              && if env.rc.Ok? then AnsweredBy(s, s', msg, Rwrite(env.rc.n)) else Rejected(s, s', msg)
            else s'.x == s.x && Rejected(s, s', msg)
  {
    PlainDispatched(cfg, s, msg, env, msg);
    WriteDone(cfg, s.x, msg, env);
    Sent(cfg, s, msg, HandleTwrite(cfg, s.x, msg, env));
  }

  /** A Tstat changes nothing; it is answered with what the filesystem wrote if the fid names a node and
      that fits the buffer. */
  lemma StatOutcome(cfg: Config, s: State, msg: seq<byte>, env: Env, m: seq<byte>)
    requires ConfigOk(cfg) && HeaderOk(msg) && msg[4] == TSTAT && m == Seen(msg, env)
    ensures var s' := Process(cfg, s, msg, env);
            && s'.pend == s.pend && s'.x == s.x
            && if Names(s.x, U32(m, 7)) && env.rc.Ok? && 9 + env.rc.n <= cfg.maxMessage then
                 AnsweredBy(s, s', msg, Rstat(env.rc.n))
               else Rejected(s, s', msg)
  {
    PlainDispatched(cfg, s, msg, env, m);
    Sent(cfg, s, msg, HandleTstat(cfg, s.x, m, env));
  }

  // ---------------------------------------------------------------- the filesystem's errors, and what is not served

  /** The request is put to the filesystem. */
  predicate ReachesFs(cfg: Config, x: Session, m: seq<byte>, env: Env)
    requires WellFormed(m) && m[4] in {TOPEN, TCREATE, TWRITE, TREMOVE, TSTAT}
  {
    if m[4] == TWRITE then Writable(cfg, x, m)
    else if m[4] == TSTAT then Names(x, U32(m, 7))
    else Asks(cfg, x, m) && Allowed(cfg, x, Entry(x, U32(m, 7)), Wanted(m), env)
  }

  /** What is said of an error that has no text of its own. */
  function Fallback(t: byte): (e: Ename)
    ensures e in {OpenFailed, CreateFailed, WriteFailed, RemoveFailed, StatFailed}
  {
    if t == TOPEN then OpenFailed
    else if t == TCREATE then CreateFailed
    else if t == TWRITE then WriteFailed
    else if t == TREMOVE then RemoveFailed
    else StatFailed
  }

  lemma ErrorDone(cfg: Config, x: Session, m: seq<byte>, env: Env)
    requires WellFormed(m) && m[4] in {TOPEN, TCREATE, TWRITE, TREMOVE, TSTAT}
    requires ReachesFs(cfg, x, m, env) && env.rc.Err?
    ensures Plain(cfg, x, m, env).body == Rerror(ErrnoEname(env.rc.e, Fallback(m[4])))
  {
  }

  /** An error of the filesystem is the answer, in the text of its errno. */
  lemma FsErrorIsReported(cfg: Config, s: State, msg: seq<byte>, env: Env, m: seq<byte>)
    requires ConfigOk(cfg) && HeaderOk(msg) && msg[4] in {TOPEN, TCREATE, TWRITE, TREMOVE, TSTAT}
    requires m == Seen(msg, env) && ReachesFs(cfg, s.x, m, env) && env.rc.Err?
    ensures AnsweredBy(s, Process(cfg, s, msg, env), msg, Rerror(ErrnoEname(env.rc.e, Fallback(msg[4]))))
  {
    PlainDispatched(cfg, s, msg, env, m);
    ErrorDone(cfg, s.x, m, env);
    Sent(cfg, s, msg, Plain(cfg, s.x, m, env));
  }

  /** A request the server does not serve, a Twstat or an unknown type, changes nothing and is refused. */
  lemma UnservedOutcome(cfg: Config, s: State, msg: seq<byte>, env: Env)
    requires ConfigOk(cfg) && HeaderOk(msg)
    requires msg[4] !in {TVERSION, TAUTH, TATTACH, TFLUSH, TWALK, TOPEN, TCREATE, TREAD, TWRITE, TCLUNK, TREMOVE, TSTAT}
    ensures var s' := Process(cfg, s, msg, env);
            s'.x == s.x && s'.pend == s.pend && Rejected(s, s', msg)
  {
    var m := Seen(msg, env);
    Dispatched(cfg, s, msg, env, m);
    Sent(cfg, s, msg, if m[4] == TWSTAT then HandleTwstat(s.x, m) else Fail(s.x, NotSupported));
  }
}
