/** What a Tread brings back: the bytes the filesystem read, an error, a parked read, or the challenge. */
module ReadOutcomes {
  import opened Bytes
  import opened Traces
  import opened Session
  import opened Dispatch
  import opened ServerInvariant
  import opened Outcomes

  // ---------------------------------------------------------------- reads that are cut short

  /** The zero-length answers to the parked reads a selector picks, in slot order from slot i on. */
  function CutShort(pend: seq<PendingRead>, sel: Selector, i: nat): seq<Reply>
    requires i <= |pend|
    decreases |pend| - i
  {
    if i == |pend| then []
    else (if Selects(sel, pend[i]) then [Reply(pend[i].rid, pend[i].tag, Rread([]))] else [])
         + CutShort(pend, sel, i + 1)
  }

  lemma {:induction false} CutShortSame(p: seq<PendingRead>, q: seq<PendingRead>, sel: Selector, i: nat)
    requires |p| == |q| && i <= |p| && forall k :: i <= k < |p| ==> p[k] == q[k]
    ensures CutShort(p, sel, i) == CutShort(q, sel, i)
    decreases |p| - i
  {
    if i < |p| {
      CutShortSame(p, q, sel, i + 1);
    }
  }

  /** A cancellation answers each read it picks once, with no bytes, and no other. */
  lemma {:induction false} CancelAnswersAll(cfg: Config, s: State, sel: Selector, i: nat)
    requires 11 <= cfg.maxMessage && i <= |s.pend|
    ensures CancelFrom(cfg, s, sel, i).sent == Append(s.sent, CutShort(s.pend, sel, i))
    decreases |s.pend| - i
  {
    if i < |s.pend| {
      var s1 := if Selects(sel, s.pend[i]) then CancelOne(cfg, s, i) else s;
      CancelAnswersAll(cfg, s1, sel, i + 1);
      CutShortSame(s.pend, s1.pend, sel, i + 1);
      if Selects(sel, s.pend[i]) {
        AppendCons(s.sent, Reply(s.pend[i].rid, s.pend[i].tag, Rread([])), CutShort(s.pend, sel, i + 1));
      } else {
        assert CutShort(s.pend, sel, i) == CutShort(s.pend, sel, i + 1);
      }
    }
  }

  // ---------------------------------------------------------------- a read of a file

  /** A Tread on a fid that is open on a file and not for writing only. */
  predicate Readable(x: Session, m: seq<byte>) {
    && |m| >= 23
    && var i := FindFid(x.fids, U32(m, 7));
       && i < |x.fids| && !x.fids[i].isAuth && x.fids[i].node != 0 && x.fids[i].isOpen
       && x.fids[i].openMode % 4 != OWRITE
  }

  /** What the filesystem may return: what was asked for, cut to the buffer and to the negotiated size. */
  predicate Granted(cfg: Config, msize: nat, asked: nat, n: nat) {
    && n <= asked && n + 11 <= cfg.maxMessage && (msize > 11 ==> n + 11 <= msize)
    && (n == asked || n + 11 == cfg.maxMessage || (msize > 11 && n + 11 == msize))
  }

  /** The replies on record once the reads parked on this fid or tag have been cut short. */
  function Superseded(cfg: Config, s: State, fid: nat, tag: nat): Trace<Reply> {
    if cfg.canDefer then Append(s.sent, CutShort(s.pend, OfFidOrTag(fid, tag), 0)) else s.sent
  }

  /** Slot k is free for a read on this fid or tag: unused, or used by a read it supersedes. */
  predicate Vacant(p: PendingRead, fid: nat, tag: nat) { !p.inUse || p.fid == fid || p.tag == tag }

  /** The read is parked in slot k under a handle the filesystem now holds, and other slots only lost the
      reads it supersedes. */
  predicate ParkedIn(s: State, s': State, k: nat, tag: nat, fid: nat, n: nat) {
    && k < |s.pend| == |s'.pend| && Vacant(s.pend[k], fid, tag)
    && s'.pend[k] == PendingRead(true, tag, fid, n, (s.pendGen + 1) % MOD32, |s.reqs|)
    && s'.issued == s.issued + {Handle(k, (s.pendGen + 1) % MOD32, |s.reqs|)} && s'.pendGen == s.pendGen + 1
    && forall j :: 0 <= j < |s.pend| && j != k ==>
         s'.pend[j] == s.pend[j].(inUse := !Vacant(s.pend[j], fid, tag))
  }

  /** The effect of the read proper. */
  predicate ReadSays(cfg: Config, s: State, s': State, e: FidEntry, tag: nat, n: nat, env: Env) {
    var before, defer := Superseded(cfg, s, e.fid, tag), env.rc == DEFER && cfg.canDefer;
    && s'.x == s.x.(log := Then(s.x.log, FsRead(e.fid, FidIdentity(s.x, e))))
    && (env.rc.Ok? && 11 + |env.data| <= cfg.maxMessage ==>
          s'.sent == Then(before, Reply(|s.reqs|, tag, Rread(env.data))))
    && (env.rc.Err? && !defer ==>
          s'.sent == Then(before, Reply(|s.reqs|, tag, Rerror(ErrnoEname(env.rc.e, ReadFailed)))))
    && (defer && (exists k :: 0 <= k < |s.pend| && Vacant(s.pend[k], e.fid, tag)) ==>
          s'.sent == before && exists k :: 0 <= k < |s.pend| && ParkedIn(s, s', k, tag, e.fid, n))
    && (defer && (forall k :: 0 <= k < |s.pend| ==> !Vacant(s.pend[k], e.fid, tag)) ==>
          s'.sent == Then(before, Reply(|s.reqs|, tag, Rread([]))))
  }

  lemma ReadAtOnce(cfg: Config, s: State, e: FidEntry, tag: nat, n: nat, env: Env)
    requires ConfigOk(cfg) && !cfg.canDefer
    ensures ReadSays(cfg, s, ReadFile(cfg, s.(reqs := s.reqs + [tag]), e, tag, n, env), e, tag, n, env)
  {
  }

  lemma ReadOrPark(cfg: Config, s: State, e: FidEntry, tag: nat, n: nat, env: Env)
    requires ConfigOk(cfg) && cfg.canDefer
    ensures ReadSays(cfg, s, ReadFile(cfg, s.(reqs := s.reqs + [tag]), e, tag, n, env), e, tag, n, env)
  {
    var r, sel := s.(reqs := s.reqs + [tag]), OfFidOrTag(e.fid, tag);
    CancelKeeps(cfg, r, sel, 0);
    CancelAnswersAll(cfg, r, sel, 0);
    var c := Cancel(cfg, r, sel);
    assert forall k :: 0 <= k < |s.pend| ==> (c.pend[k].inUse <==> !Vacant(s.pend[k], e.fid, tag));
    var slot := FreeSlot(c.pend);
    var s' := ReadFile(cfg, r, e, tag, n, env);
    if env.rc == DEFER && slot < |c.pend| {
      assert ParkedIn(s, s', slot, tag, e.fid, n);
    }
  }

  lemma LimitGranted(cfg: Config, msize: nat, asked: nat)
    requires ConfigOk(cfg)
    ensures var limit := ReadLimit(cfg, msize);
            Granted(cfg, msize, asked, if asked > limit then limit else asked)
  {
  }

  lemma ReadDispatched(cfg: Config, s: State, msg: seq<byte>, env: Env)
    requires HeaderOk(msg) && msg[4] == TREAD
    ensures Process(cfg, s, msg, env) == HandleTread(cfg, Receive(s, msg), msg, env)
  {
    Dispatched(cfg, s, msg, env, msg);
  }

  /** A Tread on a readable fid reaches the filesystem once, under the identity of the fid. What the
      filesystem read is the answer, unchanged; an error is an error; a deferral parks the read, with the
      count it may be answered with, or is answered with no bytes when no slot can be had. */
  lemma ReadOutcome(cfg: Config, s: State, msg: seq<byte>, env: Env)
    requires ConfigOk(cfg) && HeaderOk(msg) && msg[4] == TREAD && Readable(s.x, msg)
    ensures exists n: nat :: Granted(cfg, s.x.msize, U32(msg, 19), n)
                             && ReadSays(cfg, s, Process(cfg, s, msg, env), s.x.fids[FindFid(s.x.fids, U32(msg, 7))],
                                         U16(msg, 5), n, env)
  {
    var e, tag, asked := s.x.fids[FindFid(s.x.fids, U32(msg, 7))], U16(msg, 5), U32(msg, 19);
    var limit := ReadLimit(cfg, s.x.msize);
    var n := if asked > limit then limit else asked;
    ReadDispatched(cfg, s, msg, env);
    LimitGranted(cfg, s.x.msize, asked);
    if cfg.canDefer {
      ReadOrPark(cfg, s, e, tag, n, env);
    } else {
      ReadAtOnce(cfg, s, e, tag, n, env);
    }
    assert Process(cfg, s, msg, env) == ReadFile(cfg, s.(reqs := s.reqs + [tag]), e, tag, n, env);
  }

  // ---------------------------------------------------------------- a read of the challenge, and no read at all

  /** A Tread on an auth fid. */
  predicate ReadsAuth(x: Session, m: seq<byte>) {
    |m| >= 23 && var i := FindFid(x.fids, U32(m, 7)); i < |x.fids| && x.fids[i].isAuth
  }

  /** The bytes of t from `from` on, at most n of them. */
  function Part(t: seq<byte>, from: nat, n: nat): seq<byte> {
    if from >= |t| then [] else if n < |t| - from then t[from..from + n] else t[from..]
  }

  /** The challenge is handed out, and marked as handed out, for a minute. After that, and on a slot that
      is gone, the read is refused and nothing changes. */
  lemma ChallengeOutcome(cfg: Config, s: State, msg: seq<byte>, env: Env)
    requires ConfigOk(cfg) && HeaderOk(msg) && msg[4] == TREAD && ReadsAuth(s.x, msg)
    ensures var s', j := Process(cfg, s, msg, env), s.x.fids[FindFid(s.x.fids, U32(msg, 7))].authIdx;
            s'.pend == s.pend &&
            if AuthLive(s.x.auths, j) && (env.now - s.x.auths[j].time) % MOD64 <= 60000 then
              && AnsweredBy(s, s', msg, Rread(Part(s.x.auths[j].challenge, U64(msg, 11), U32(msg, 19))))
              && s'.x == s.x.(auths := s.x.auths[j := s.x.auths[j].(issued := true)])
            else s'.x == s.x && Rejected(s, s', msg)
  {
    var e := s.x.fids[FindFid(s.x.fids, U32(msg, 7))];
    var d := AuthRead(s.x, e, U64(msg, 11), U32(msg, 19), env);
    AuthReadDispatched(cfg, s, msg, env, e);
    ChallengeRead(s.x, e, U64(msg, 11), U32(msg, 19), env);
    Sent(cfg, s, msg, d);
  }

  lemma AuthReadDispatched(cfg: Config, s: State, msg: seq<byte>, env: Env, e: FidEntry)
    requires HeaderOk(msg) && msg[4] == TREAD && ReadsAuth(s.x, msg) && e == s.x.fids[FindFid(s.x.fids, U32(msg, 7))]
    ensures var d := AuthRead(s.x, e, U64(msg, 11), U32(msg, 19), env);
            Process(cfg, s, msg, env) == Finish(cfg, Receive(s, msg), U16(msg, 5), d)
  {
    ReadDispatched(cfg, s, msg, env);
  }

  lemma ChallengeRead(x: Session, e: FidEntry, offset: nat, count: nat, env: Env)
    ensures var d, j := AuthRead(x, e, offset, count, env), e.authIdx;
            if AuthLive(x.auths, j) && (env.now - x.auths[j].time) % MOD64 <= 60000 then
              && d.body == Rread(Part(x.auths[j].challenge, offset, count))
              && d.x == x.(auths := x.auths[j := x.auths[j].(issued := true)])
            else d.x == x && d.body.Rerror?
  {
  }

  /** Any other Tread is refused, reaches no filesystem, and leaves the parked reads alone. */
  lemma UnreadableOutcome(cfg: Config, s: State, msg: seq<byte>, env: Env)
    requires ConfigOk(cfg) && HeaderOk(msg) && msg[4] == TREAD && !Readable(s.x, msg) && !ReadsAuth(s.x, msg)
    ensures var s' := Process(cfg, s, msg, env);
            s'.x == s.x && s'.pend == s.pend && Rejected(s, s', msg)
  {
    ReadDispatched(cfg, s, msg, env);
  }
}
