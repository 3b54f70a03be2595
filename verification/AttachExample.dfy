/** One attach that misses its subtree, after a handshake from power-up: Tauth, Tread and Twrite on an afid. */
module AttachExample {
  import opened Bytes
  import opened PathNames
  import opened Session
  import opened SessionInvariant
  import opened Dispatch
  import opened ServerInvariant
  import opened Wire
  import opened AttachPaths

  const BOB: seq<byte> := [98, 111, 98]
  const FS: seq<byte> := [102, 115]

  /** A server that can authenticate, with room for two fids, and an application that accepts the response. */
  ghost predicate Setting(cfg: Config, env: Env) {
    && ConfigOk(cfg) && cfg.auth && cfg.canVerify && cfg.maxFids >= 2 && cfg.authPool >= 1
    && (forall id, key, signature, c :: env.verifies(id, key, signature, c))
    && env.data == [] && env.root == 1 && env.walks == [2]
  }

  function Asked(cfg: Config, env: Env): State { Process(cfg, Initial(cfg), Tauth(0, 5, BOB, []), env) }

  function Challenged(cfg: Config, env: Env): State { Process(cfg, Asked(cfg, env), Tread(1, 5, 0, 32), env) }

  /** The server once "bob" has completed the handshake on fid 5. */
  function Proven(cfg: Config, env: Env): State {
    Process(cfg, Challenged(cfg, env), Twrite(2, 5, 0, Response()), env)
  }

  function Response(): (r: seq<byte>)
    ensures |r| == 96
  {
    seq(96, _ => 0)
  }

  /** Fid 5 alone is in use, as the auth fid of a handshake for "bob" that has got so far. */
  predicate Handshake(x: Session, env: Env, issued: bool, done: bool) {
    && |x.fids| >= 2 && x.fids[0].inUse && x.fids[0].fid == 5 && x.fids[0].isAuth && x.fids[0].authIdx == 0
    && (forall k :: 1 <= k < |x.fids| ==> !x.fids[k].inUse)
    && |x.auths| >= 1 && x.auths[0].used && x.auths[0].identity == BOB && x.auths[0].time == env.now
    && x.auths[0].issued == issued && x.auths[0].authenticated == done
  }

  lemma AskStep(cfg: Config, env: Env, x: Session, m: seq<byte>)
    requires Setting(cfg, env) && x == Initial(cfg).x && |m| >= 11 && U32(m, 7) == 5 && AuthUname(m, env) == BOB
    ensures Handshake(HandleTauth(cfg, x, m, env).x, env, false, false)
  {
    CStrOfClean(BOB);
    assert AllocAt(x.fids, 5) == 0 && FreeAuth(x.auths) == 0;
  }

  lemma ReadStep(env: Env, x: Session)
    requires Handshake(x, env, false, false)
    ensures Handshake(AuthRead(x, x.fids[0], 0, 32, env).x, env, true, false)
  {
  }

  lemma WriteStep(cfg: Config, env: Env, x: Session, data: seq<byte>)
    requires Setting(cfg, env) && Handshake(x, env, true, false) && |data| == 96
    ensures Handshake(AuthWrite(cfg, x, 0, data, env).x, env, true, true)
  {
  }

  lemma AskedIs(cfg: Config, env: Env)
    ensures var s, m := Initial(cfg), Tauth(0, 5, BOB, []);
            && |m| >= 11 && m[4] == TAUTH && U32(m, 7) == 5 && AuthUname(m, env) == BOB
            && Asked(cfg, env) == Finish(cfg, Receive(s, m), 0, HandleTauth(cfg, s.x, m, env))
  {
    TauthReadBack(0, 5, BOB, [], env);
    AuthDispatched(cfg, Initial(cfg), Tauth(0, 5, BOB, []), env, 0);
  }

  lemma AuthDispatched(cfg: Config, s: State, m: seq<byte>, env: Env, tag: nat)
    requires HeaderOk(m) && |m| >= 11 && m[4] == TAUTH && U16(m, 5) == tag
    ensures Process(cfg, s, m, env) == Finish(cfg, Receive(s, m), tag, HandleTauth(cfg, s.x, m, env))
  {
    assert Seen(m, env) == m;
    AuthHandled(cfg, Receive(s, m), m, env, tag);
  }

  lemma AuthHandled(cfg: Config, s: State, m: seq<byte>, env: Env, tag: nat)
    requires WellFormed(m) && |m| >= 11 && m[4] == TAUTH && U16(m, 5) == tag && |s.reqs| > 0
    ensures Handle1(cfg, s, m, env) == Finish(cfg, s, tag, HandleTauth(cfg, s.x, m, env))
  {
  }

  lemma ReadIs(cfg: Config, env: Env, s: State)
    requires Handshake(s.x, env, false, false)
    ensures var m := Tread(1, 5, 0, 32);
            && m[4] == TREAD
            && Process(cfg, s, m, env) == Finish(cfg, Receive(s, m), 1, AuthRead(s.x, s.x.fids[0], 0, 32, env))
  {
    TreadReadBack(1, 5, 0, 32);
    assert FindFid(s.x.fids, 5) == 0;
  }

  lemma WriteIs(cfg: Config, env: Env, s: State, data: seq<byte>)
    requires Handshake(s.x, env, true, false) && |data| == 96
    ensures var m := Twrite(2, 5, 0, data);
            && m[4] == TWRITE
            && Process(cfg, s, m, env) == Finish(cfg, Receive(s, m), 2, AuthWrite(cfg, s.x, 0, data, env))
  {
    TwriteReadBack(2, 5, 0, data);
    HeaderReadBack(TWRITE, 2, LE32(5) + LE64(0) + LE32(96) + data);
    assert FindFid(s.x.fids, 5) == 0 && Twrite(2, 5, 0, data)[23..23 + 96] == data;
  }

  /** A state of the handshake that dispatches have led to. */
  ghost predicate Reached(cfg: Config, env: Env, s: State, issued: bool, done: bool) {
    ServerOk(cfg, s) && s.pendGen == 0 && Handshake(s.x, env, issued, done)
  }

  lemma AskedReached(cfg: Config, env: Env)
    requires Setting(cfg, env)
    ensures Reached(cfg, env, Asked(cfg, env), false, false)
  {
    var s, m := Initial(cfg), Tauth(0, 5, BOB, []);
    AskedIs(cfg, env);
    AskStep(cfg, env, s.x, m);
    InitialOk(cfg);
    ProcessOk(cfg, s, m, env);
  }

  lemma ReadReached(cfg: Config, env: Env, s: State)
    requires Setting(cfg, env) && Reached(cfg, env, s, false, false)
    ensures Reached(cfg, env, Process(cfg, s, Tread(1, 5, 0, 32), env), true, false)
  {
    ReadIs(cfg, env, s);
    ReadStep(env, s.x);
    ProcessOk(cfg, s, Tread(1, 5, 0, 32), env);
  }

  lemma WriteReached(cfg: Config, env: Env, s: State, data: seq<byte>)
    requires Setting(cfg, env) && Reached(cfg, env, s, true, false) && |data| == 96
    ensures Reached(cfg, env, Process(cfg, s, Twrite(2, 5, 0, data), env), true, true)
  {
    WriteIs(cfg, env, s, data);
    WriteStep(cfg, env, s.x, data);
    ProcessOk(cfg, s, Twrite(2, 5, 0, data), env);
  }

  lemma ProvenReached(cfg: Config, env: Env)
    requires Setting(cfg, env)
    ensures Reached(cfg, env, Proven(cfg, env), true, true)
  {
    AskedReached(cfg, env);
    ReadReached(cfg, env, Asked(cfg, env));
    WriteReached(cfg, env, Challenged(cfg, env), Response());
  }

  lemma BobAttaches(cfg: Config, env: Env, x: Session, uname: seq<byte>)
    requires Handshake(x, env, true, true) && (uname == [] || uname == BOB)
    ensures AttachAuthority(cfg, x, 5, uname) == Authentic(BOB) && AllocAt(x.fids, 6) == 1
  {
    assert FindFid(x.fids, 5) == 0 && FindFid(x.fids, 6) == |x.fids|;
    assert !x.fids[1].inUse && FreeEntry(x.fids) == 1;
  }

  lemma FsIsOneName()
    ensures Components(FS) == [FS]
  {
    SlashAtIs(FS, 2);
    assert FS[..2] == FS && FS[2..] == [];
  }

  /** The subtree "fs" asked for without a name is not walked to: the fid stands at the root. */
  lemma NamelessAttachMissesSubtree(cfg: Config, env: Env)
    requires Setting(cfg, env)
    ensures var x := Proven(cfg, env).x; var d := HandleTattach(cfg, x, Tattach(3, 6, 5, [], FS), env);
            d.body == Rattach(env.qid(1)) && |d.x.fids| > 1 && d.x.fids[1].fid == 6 && d.x.fids[1].node == 1
  {
    ProvenReached(cfg, env);
    MissesSubtree(cfg, env, Proven(cfg, env).x);
  }

  lemma MissesSubtree(cfg: Config, env: Env, x: Session)
    requires Setting(cfg, env) && Handshake(x, env, true, true)
    ensures var d := HandleTattach(cfg, x, Tattach(3, 6, 5, [], FS), env);
            d.body == Rattach(env.qid(1)) && |d.x.fids| > 1 && d.x.fids[1].fid == 6 && d.x.fids[1].node == 1
  {
    BobAttaches(cfg, env, x, []);
    ShiftedEndsAtRoot(cfg, x, env, 3, 6, 5, FS);
  }

  /** Asked for under the name "bob" it is reached. */
  lemma NamedAttachFindsSubtree(cfg: Config, env: Env)
    requires Setting(cfg, env)
    ensures var x := Proven(cfg, env).x; var d := HandleTattach(cfg, x, Tattach(3, 6, 5, BOB, FS), env);
            d.body == Rattach(env.qid(2)) && |d.x.fids| > 1 && d.x.fids[1].fid == 6 && d.x.fids[1].node == 2
  {
    ProvenReached(cfg, env);
    FindsSubtree(cfg, env, Proven(cfg, env).x);
  }

  lemma FindsSubtree(cfg: Config, env: Env, x: Session)
    requires Setting(cfg, env) && Handshake(x, env, true, true)
    ensures var d := HandleTattach(cfg, x, Tattach(3, 6, 5, BOB, FS), env);
            d.body == Rattach(env.qid(2)) && |d.x.fids| > 1 && d.x.fids[1].fid == 6 && d.x.fids[1].node == 2
  {
    var m := Tattach(3, 6, 5, BOB, FS);
    BobAttaches(cfg, env, x, BOB);
    TattachReadBack(3, 6, 5, BOB, FS, env);
    AnameTakenIff(cfg, x, env, 3, 6, 5, BOB, FS);
    FsIsOneName();
    AttachStandsAtAname(cfg, x, m, env);
  }
}
