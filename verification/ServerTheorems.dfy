/** What holds on every run of the server, from power-up, under every interleaving. */
module ServerTheorems {
  import opened Bytes
  import opened Options
  import opened Traces
  import opened Session
  import opened SessionInvariant
  import opened Dispatch
  import opened ServerInvariant
  import opened ServerRuns
  import opened AuthVerdicts

  // ---------------------------------------------------------------- requests

  predicate Settled(s: State, r: nat) {
    var a, p, d := Replies(s.sent, r), Parkings(s.pend, r), Drops(s.dropped, r);
    (a == 1 && p == 0 && d == 0) || (a == 0 && p == 1 && d == 0) || (a == 0 && p == 0 && d == 1)
  }

  lemma {:induction false} SentOkAt(sent: Trace<Reply>, reqs: seq<nat>, at: Trace<Reply>)
    requires SentOk(sent, reqs) && Reaches(at, sent) && at.Then?
    ensures at.last.rid < |reqs| && at.last.tag == reqs[at.last.rid]
  {
    if at != sent {
      SentOkAt(sent.before, reqs, at);
    }
  }

  /** Request conservation: every request received is answered exactly once, or parked in exactly one
      slot, or dropped by a session reset; no reply is for anything else, and each carries the tag of
      the request it answers. */
  lemma RequestsConserved(cfg: Config, n: nat, acts: seq<Action>)
    requires ConfigOk(cfg) && Feasible(cfg, Boot(cfg, n), acts)
    ensures var s := Run(cfg, Boot(cfg, n), acts).s;
            && (forall r :: 0 <= r < |s.reqs| ==> Settled(s, r))
            && (forall at :: Reaches(at, s.sent) && at.Then? ==>
                  at.last.rid < |s.reqs| && at.last.tag == s.reqs[at.last.rid])
  {
    BootOk(cfg, n);
    RunOk(cfg, Boot(cfg, n), acts);
    var s := Run(cfg, Boot(cfg, n), acts).s;
    forall r | 0 <= r < |s.reqs| ensures Settled(s, r) {
      assert Total(s, r) == One(r < |s.reqs|);
    }
    forall at | Reaches(at, s.sent) && at.Then?
      ensures at.last.rid < |s.reqs| && at.last.tag == s.reqs[at.last.rid] {
      SentOkAt(s.sent, s.reqs, at);
    }
  }

  // ---------------------------------------------------------------- parked reads

  lemma {:induction false} RepliesGrow(t: Trace<Reply>, whole: Trace<Reply>, r: nat)
    requires Reaches(t, whole)
    ensures Replies(t, r) <= Replies(whole, r)
  {
    if t != whole {
      RepliesGrow(t, whole.before, r);
    }
  }

  lemma {:induction false} DropsGrow(t: Trace<nat>, whole: Trace<nat>, r: nat)
    requires Reaches(t, whole)
    ensures Drops(t, r) <= Drops(whole, r)
  {
    if t != whole {
      DropsGrow(t, whole.before, r);
    }
  }

  /** A handle that still matches a slot belongs to the read parked there. */
  lemma MatchingHandle(cfg: Config, s: State, h: Handle)
    requires ServerOk(cfg, s) && h in s.issued && Answerable(s, h.slot, h.gen)
    ensures Parkings(s.pend, h.rid) == 1 && Replies(s.sent, h.rid) == 0 && Drops(s.dropped, h.rid) == 0
  {
    assert HandleOk(s, h);
    ParkingsUpdate(s.pend, h.slot, s.pend[h.slot], h.rid);
    assert Total(s, h.rid) == One(h.rid < |s.reqs|);
  }

  /** Once a parked read has been answered or dropped, a completion with its handle is refused with
      Stale and changes nothing, now and after any further steps of any threads. */
  lemma StaleForever(cfg: Config, w: World, acts: seq<Action>, h: Handle, data: seq<byte>)
    requires ConfigOk(cfg) && WorldOk(cfg, w) && Feasible(cfg, w, acts)
    requires h in w.s.issued && Replies(w.s.sent, h.rid) + Drops(w.s.dropped, h.rid) > 0
    ensures var s := Run(cfg, w, acts).s;
            Complete(cfg, s, h.slot, h.gen, data) == Completion(s, Stale)
  {
    RunOk(cfg, w, acts);
    RunGrows(cfg, w, acts);
    var s := Run(cfg, w, acts).s;
    RepliesGrow(w.s.sent, s.sent, h.rid);
    DropsGrow(w.s.dropped, s.dropped, h.rid);
    if Answerable(s, h.slot, h.gen) {
      MatchingHandle(cfg, s, h);
    }
  }

  /** d is as much of the front of data as the count and a buffer of the given size allow. */
  predicate FrontOf(d: seq<byte>, data: seq<byte>, count: nat, room: nat) {
    d <= data && |d| <= count && |d| <= room && (|d| == |data| || |d| == count || |d| == room)
  }

  /** A completer's turn under the lock either answers the read its handle was issued for, with its
      tag and the data handed in, as much of it as was asked for, or is stale and sends nothing. */
  lemma CompletionAnswersItsOwn(cfg: Config, w: World, i: nat)
    requires ConfigOk(cfg) && WorldOk(cfg, w) && Enabled(cfg, w, TxLeave(i))
    ensures var t, s, s' := w.threads[i], w.s, Apply(cfg, w, TxLeave(i)).s;
            if Answerable(s, t.h.slot, t.h.gen) then
              var p := s.pend[t.h.slot];
              && p.rid == t.h.rid && Apply(cfg, w, TxLeave(i)).threads[i].rc == Answered
              && s'.sent.Then? && s'.sent.last.body.Rread?
              && FrontOf(s'.sent.last.body.data, t.data, p.count, cfg.maxMessage - 11)
              && s'.sent == Then(s.sent, Reply(p.rid, p.tag, s'.sent.last.body))
              && s' == s.(sent := s'.sent, pend := s.pend[t.h.slot := p.(inUse := false)])
            else s' == s && Apply(cfg, w, TxLeave(i)).threads[i].rc == Stale
  {
    var t, s := w.threads[i], w.s;
    if Answerable(s, t.h.slot, t.h.gen) {
      assert t.h in Known(cfg, w) && w.disp.None?;
      assert HandleOk(s, t.h);
      var p := s.pend[t.h.slot];
      CompleteOk(cfg, s, t.h.slot, t.h.gen, t.data);
      var d := Clamp(cfg, p, t.data);
      assert FrontOf(d, t.data, p.count, cfg.maxMessage - 11);
      assert Apply(cfg, w, TxLeave(i)).s.sent == Then(s.sent, Reply(p.rid, p.tag, Rread(d)));
    }
  }

  /** Once a request has its reply, nothing any thread does later sends it another. */
  lemma NoSecondReply(cfg: Config, w: World, acts: seq<Action>, at: Trace<Reply>, r: nat)
    requires ConfigOk(cfg) && WorldOk(cfg, w) && Feasible(cfg, w, acts) && Replies(w.s.sent, r) >= 1
    requires Reaches(w.s.sent, at) && at != w.s.sent && Reaches(at, Run(cfg, w, acts).s.sent)
    ensures at.last.rid != r
  {
    RunOk(cfg, w, acts);
    var s := Run(cfg, w, acts).s;
    assert Total(s, r) == One(r < |s.reqs|);
    RepliesGrow(w.s.sent, at.before, r);
    RepliesGrow(at, s.sent, r);
  }

  lemma {:induction false} CancelAnswers(cfg: Config, s: State, sel: Selector, i: nat, k: nat)
    requires i <= k < |s.pend| && Selects(sel, s.pend[k]) && 11 <= cfg.maxMessage
    ensures Replies(CancelFrom(cfg, s, sel, i).sent, s.pend[k].rid) >= 1
    decreases k - i
  {
    if i == k {
      var s1 := CancelOne(cfg, s, i);
      CancelGrows(cfg, s1, sel, i + 1);
      RepliesGrow(s1.sent, CancelFrom(cfg, s1, sel, i + 1).sent, s.pend[k].rid);
    } else {
      var s1 := if Selects(sel, s.pend[i]) then CancelOne(cfg, s, i) else s;
      assert s1.pend[k] == s.pend[k];
      CancelAnswers(cfg, s1, sel, i + 1, k);
    }
  }

  /** A Tflush answers every read parked under the flushed tag before its Rflush, and after that
      Rflush no reply to such a read appears on the wire, whatever runs next. */
  lemma FlushIsFinal(cfg: Config, w: World, acts: seq<Action>, k: nat)
    requires ConfigOk(cfg) && WorldOk(cfg, w) && Enabled(cfg, w, DispatchLeave)
    requires HeaderOk(w.disp.value.msg) && w.disp.value.msg[4] == TFLUSH
    requires k < |w.s.pend| && w.s.pend[k].inUse
    requires w.s.pend[k].tag == U16(Seen(w.disp.value.msg, w.disp.value.env), 7)
    requires Feasible(cfg, Apply(cfg, w, DispatchLeave), acts)
    ensures var r, w1 := w.s.pend[k].rid, Apply(cfg, w, DispatchLeave);
            && w1.s.sent.Then? && w1.s.sent.last.body == Rflush && Replies(w1.s.sent.before, r) == 1
            && forall at :: Reaches(w1.s.sent, at) && at != w1.s.sent && Reaches(at, Run(cfg, w1, acts).s.sent)
                            ==> at.last.rid != r
  {
    var msg, r, w1 := Seen(w.disp.value.msg, w.disp.value.env), w.s.pend[k].rid, Apply(cfg, w, DispatchLeave);
    var s1, sel := Receive(w.s, msg), OfTag(U16(msg, 7));
    CancelAnswers(cfg, s1, sel, 0, k);
    StepOk(cfg, w, DispatchLeave);
    assert Total(w1.s, r) == One(r < |w1.s.reqs|);
    forall at | Reaches(w1.s.sent, at) && at != w1.s.sent && Reaches(at, Run(cfg, w1, acts).s.sent)
      ensures at.last.rid != r {
      NoSecondReply(cfg, w1, acts, at, r);
    }
  }

  // ---------------------------------------------------------------- tables

  /** Reference counts, auth slots, fid numbers and parked reads are exact in every reachable state. */
  lemma TablesExact(cfg: Config, n: nat, acts: seq<Action>)
    requires ConfigOk(cfg) && Feasible(cfg, Boot(cfg, n), acts)
    ensures var s := Run(cfg, Boot(cfg, n), acts).s; var fids := s.x.fids;
            && (forall i :: 0 <= i < |s.x.names| ==> s.x.names[i].refs == Holders(fids, i))
            && (forall j :: 0 <= j < |s.x.auths| ==> AuthHolders(fids, j) == One(s.x.auths[j].used))
            && (forall k :: 0 <= k < |fids| && fids[k].inUse ==>
                  (fids[k].isAuth <==> fids[k].authIdx != POOL_NONE)
                  && (fids[k].isAuth ==> AuthLive(s.x.auths, fids[k].authIdx)))
            && (forall a, b :: 0 <= a < b < |fids| && fids[a].inUse && fids[b].inUse ==> fids[a].fid != fids[b].fid)
            && (forall i, k :: 0 <= i < k < |s.pend| && s.pend[i].inUse && s.pend[k].inUse ==>
                  s.pend[i].tag != s.pend[k].tag && s.pend[i].fid != s.pend[k].fid)
  {
    BootOk(cfg, n);
    RunOk(cfg, Boot(cfg, n), acts);
    var s := Run(cfg, Boot(cfg, n), acts).s;
    forall k | 0 <= k < |s.x.fids| && s.x.fids[k].inUse && s.x.fids[k].isAuth
      ensures AuthLive(s.x.auths, s.x.fids[k].authIdx) {
      AuthFidHasSlot(s.x.fids, s.x.auths, k);
    }
    forall i, k | 0 <= i < k < |s.pend| && s.pend[i].inUse && s.pend[k].inUse
      ensures s.pend[i].tag != s.pend[k].tag && s.pend[i].fid != s.pend[k].fid {
      assert Apart(s.pend[i], s.pend[k]);
    }
  }

  // ---------------------------------------------------------------- identities and open fids

  /** No event after `from` up to the end of `log` resets the session. */
  predicate SameSession(from: Log, log: Log) {
    from == log || (log.Then? && !log.last.Reset? && SameSession(from, log.before))
  }

  predicate StillOpen(from: Log, log: Log, fid: nat) {
    from == log || (log.Then? && !log.last.Reset? && log.last != Bound(fid) && StillOpen(from, log.before, fid))
  }

  lemma {:induction false} VerifiedMeans(log: Log, id: seq<byte>)
    requires id in Replay(log).verified
    ensures exists v: Log :: v.Then? && v.last == Verified(id) && SameSession(v, log)
  {
    if log.last == Verified(id) {
      assert SameSession(log, log);
    } else {
      VerifiedMeans(log.before, id);
      var v: Log :| v.Then? && v.last == Verified(id) && SameSession(v, log.before);
      assert SameSession(v, log);
    }
  }

  lemma {:induction false} OpenedMeans(log: Log, fid: nat)
    requires fid in Replay(log).modes
    ensures exists v: Log :: v.Then? && v.last == Opened(fid, Replay(log).modes[fid]) && StillOpen(v, log, fid)
  {
    var m := Replay(log).modes[fid];
    if log.last.Opened? && log.last.fid == fid {
      assert StillOpen(log, log, fid);
    } else {
      OpenedMeans(log.before, fid);
      var v: Log :| v.Then? && v.last == Opened(fid, m) && StillOpen(v, log.before, fid);
      assert StillOpen(v, log, fid);
    }
  }

  lemma ReachableLog(cfg: Config, n: nat, acts: seq<Action>, at: Log)
    requires ConfigOk(cfg) && Feasible(cfg, Boot(cfg, n), acts)
    requires Reaches(at, Run(cfg, Boot(cfg, n), acts).s.x.log) && at.Then?
    ensures EventOk(Replay(at.before), at.last)
  {
    BootOk(cfg, n);
    RunOk(cfg, Boot(cfg, n), acts);
    LogOkAt(Run(cfg, Boot(cfg, n), acts).s.x.log, at);
  }

  lemma {:induction false} SameSessionReaches(v: Log, log: Log)
    requires SameSession(v, log)
    ensures Reaches(v, log)
  {
    if v != log {
      SameSessionReaches(v, log.before);
    }
  }

  predicate ShowsIdentity(e: Event) { e.FsRead? || e.FsWrite? || e.FsCreate? || e.CheckPerm? }

  /** Every identity shown to the filesystem or the permission policy is empty, or earlier in the same
      session verify_auth said yes to it: a dispatch of the run, whose log is v, put a response to that
      identity's fresh challenge to the application and was told so. */
  lemma IdentitiesAreVerified(cfg: Config, n: nat, acts: seq<Action>, at: Log)
    requires ConfigOk(cfg) && Feasible(cfg, Boot(cfg, n), acts)
    requires Reaches(at, Run(cfg, Boot(cfg, n), acts).s.x.log) && at.Then? && ShowsIdentity(at.last)
    ensures at.last.id == [] || exists v: Log :: v.Then? && v.last == Verified(at.last.id) && SameSession(v, at.before)
                                                 && Given(cfg, Boot(cfg, n), acts, v)
  {
    ReachableLog(cfg, n, acts, at);
    if at.last.id != [] {
      VerifiedMeans(at.before, at.last.id);
      var v: Log :| v.Then? && v.last == Verified(at.last.id) && SameSession(v, at.before);
      SameSessionReaches(v, at.before);
      ReachesAgain(v, at, Run(cfg, Boot(cfg, n), acts).s.x.log);
      VerdictsWereGiven(cfg, Boot(cfg, n), acts, v);
    }
  }

  /** Every filesystem read or write follows, since its fid was bound, an open or create whose access
      bits allow it. */
  lemma AccessWasOpened(cfg: Config, n: nat, acts: seq<Action>, at: Log)
    requires ConfigOk(cfg) && Feasible(cfg, Boot(cfg, n), acts)
    requires Reaches(at, Run(cfg, Boot(cfg, n), acts).s.x.log) && at.Then? && (at.last.FsRead? || at.last.FsWrite?)
    ensures exists v: Log, m: nat ::
              && v.Then? && v.last == Opened(at.last.fid, m) && StillOpen(v, at.before, at.last.fid)
              && (at.last.FsRead? ==> m % 4 != OWRITE)
              && (at.last.FsWrite? ==> m % 4 != OREAD && m % 4 != OEXEC)
  {
    ReachableLog(cfg, n, acts, at);
    OpenedMeans(at.before, at.last.fid);
  }

  lemma {:induction false} StillOpenRecorded(v: Log, log: Log, fid: nat)
    requires v.Then? && v.last.Opened? && v.last.fid == fid && StillOpen(v, log, fid)
    ensures fid in Replay(log).modes
  {
    if v != log {
      StillOpenRecorded(v, log.before, fid);
    }
  }

  /** No Twalk gets under way, with names or without, from a fid that has been opened since it was
      bound, and no name is walked from one. */
  lemma WalksStartUnopened(cfg: Config, n: nat, acts: seq<Action>, at: Log, v: Log)
    requires ConfigOk(cfg) && Feasible(cfg, Boot(cfg, n), acts)
    requires Reaches(at, Run(cfg, Boot(cfg, n), acts).s.x.log) && at.Then? && (at.last.Walks? || at.last.FsWalk?)
    requires v.Then? && v.last.Opened? && v.last.fid == at.last.fid
    ensures !StillOpen(v, at.before, at.last.fid)
  {
    ReachableLog(cfg, n, acts, at);
    if StillOpen(v, at.before, at.last.fid) {
      StillOpenRecorded(v, at.before, at.last.fid);
    }
  }

  /** A Twalk from such a fid is refused and changes nothing of the session, however many names it
      carries and whatever newfid is. */
  lemma OpenFidsRefuseWalks(cfg: Config, w: World, v: Log)
    requires ConfigOk(cfg) && WorldOk(cfg, w) && Enabled(cfg, w, DispatchLeave)
    requires HeaderOk(w.disp.value.msg) && w.disp.value.msg[4] == TWALK
    requires v.Then? && v.last.Opened? && v.last.fid == U32(Seen(w.disp.value.msg, w.disp.value.env), 7)
    requires StillOpen(v, w.s.x.log, v.last.fid)
    ensures var s, s', tag := w.s, Apply(cfg, w, DispatchLeave).s, U16(w.disp.value.msg, 5);
            var why := if FindFid(s.x.fids, v.last.fid) < |s.x.fids| then WalkOpenFid else UnknownFid;
            s'.x == s.x && s'.pend == s.pend && s'.sent == Then(s.sent, Reply(|s.reqs|, tag, Rerror(why)))
  {
    StillOpenRecorded(v, w.s.x.log, v.last.fid);
    var i := FindFid(w.s.x.fids, v.last.fid);
    if i < |w.s.x.fids| {
      assert EntryOpenOk(Replay(w.s.x.log), w.s.x.fids[i]);
    }
  }

  // ---------------------------------------------------------------- message size

  /** Every Rread in `sent` beyond `from` fits `limit`. */
  predicate ReadsFit(from: Trace<Reply>, sent: Trace<Reply>, limit: nat) {
    from == sent || (sent.Then? && (sent.last.body.Rread? ==> Size(sent.last.body) <= limit)
                     && ReadsFit(from, sent.before, limit))
  }

  lemma {:induction false} CancelsFit(cfg: Config, from: Trace<Reply>, s: State, sel: Selector, i: nat, limit: nat)
    requires i <= |s.pend| && 11 <= limit && ReadsFit(from, s.sent, limit)
    ensures ReadsFit(from, CancelFrom(cfg, s, sel, i).sent, limit)
    decreases |s.pend| - i
  {
    if i < |s.pend| {
      CancelsFit(cfg, from, if Selects(sel, s.pend[i]) then CancelOne(cfg, s, i) else s, sel, i + 1, limit);
    }
  }

  predicate ReadsAuthFid(x: Session, msg: seq<byte>) {
    |msg| >= 23 && msg[4] == TREAD && var i := FindFid(x.fids, U32(msg, 7)); i < |x.fids| && x.fids[i].isAuth
  }

  lemma ReadFileFits(cfg: Config, s: State, e: FidEntry, tag: nat, count: nat, env: Env)
    requires |s.reqs| > 0 && s.x.msize > 11 && 11 + |env.data| <= s.x.msize
    ensures ReadsFit(s.sent, ReadFile(cfg, s, e, tag, count, env).sent, s.x.msize)
  {
    CancelsFit(cfg, s.sent, s, OfFidOrTag(e.fid, tag), 0, s.x.msize);
    CancelKeeps(cfg, s, OfFidOrTag(e.fid, tag), 0);
  }

  lemma ReadFits(cfg: Config, s: State, msg: seq<byte>, env: Env)
    requires |msg| >= 7 && |s.reqs| > 0 && msg[4] == TREAD && s.x.msize > 11
    requires FsHonest(cfg, s, msg, env) && !ReadsAuthFid(s.x, msg)
    ensures ReadsFit(s.sent, HandleTread(cfg, s, msg, env).sent, s.x.msize)
  {
    if |msg| >= 23 {
      var i := FindFid(s.x.fids, U32(msg, 7));
      if i < |s.x.fids| {
        var count, limit := U32(msg, 19), ReadLimit(cfg, s.x.msize);
        ReadFileFits(cfg, s, s.x.fids[i], U16(msg, 5), if count > limit then limit else count, env);
      }
    }
  }

  lemma ProcessFits(cfg: Config, s: State, msg: seq<byte>, env: Env)
    requires s.x.msize > 11 && FsHonest(cfg, s, msg, env) && !ReadsAuthFid(s.x, msg)
    ensures ReadsFit(s.sent, Process(cfg, s, msg, env).sent, s.x.msize)
  {
    if HeaderOk(msg) {
      HandlerFits(cfg, Receive(s, msg), Seen(msg, env), env);
    }
  }

  lemma HandlerFits(cfg: Config, s1: State, msg: seq<byte>, env: Env)
    requires WellFormed(msg) && |s1.reqs| > 0
    requires s1.x.msize > 11 && FsHonest(cfg, s1, msg, env) && !ReadsAuthFid(s1.x, msg)
    ensures ReadsFit(s1.sent, Handle1(cfg, s1, msg, env).sent, s1.x.msize)
  {
    var t := msg[4];
    if t == TREAD {
      ReadFits(cfg, s1, msg, env);
    } else if t == TFLUSH {
      CancelKeeps(cfg, s1, OfTag(U16(msg, 7)), 0);
      CancelsFit(cfg, s1.sent, s1, OfTag(U16(msg, 7)), 0, s1.x.msize);
    } else if t == TCLUNK {
      CancelKeeps(cfg, s1, OfFid(U32(msg, 7)), 0);
      CancelsFit(cfg, s1.sent, s1, OfFid(U32(msg, 7)), 0, s1.x.msize);
    }
  }

  /** With a usable msize, whatever one dispatch or one completion sends as an Rread on an ordinary
      fid fits the msize in force, and a parked read stays within it until it is answered. */
  lemma RreadsFitMsize(cfg: Config, w: World, a: Action)
    requires ConfigOk(cfg) && WorldOk(cfg, w) && Enabled(cfg, w, a) && w.s.x.msize > 11
    requires a.DispatchLeave? ==> !ReadsAuthFid(w.s.x, w.disp.value.msg)
    ensures ReadsFit(w.s.sent, Apply(cfg, w, a).s.sent, w.s.x.msize)
    ensures forall k :: 0 <= k < |w.s.pend| && w.s.pend[k].inUse ==>
              11 + w.s.pend[k].count <= w.s.x.msize && 11 + w.s.pend[k].count <= cfg.maxMessage
  {
    forall k | 0 <= k < |w.s.pend| && w.s.pend[k].inUse
      ensures 11 + w.s.pend[k].count <= w.s.x.msize && 11 + w.s.pend[k].count <= cfg.maxMessage {
      assert SlotOk(cfg, w.s, w.s.pend[k]);
    }
    if a.DispatchLeave? {
      ProcessFits(cfg, w.s, w.disp.value.msg, w.disp.value.env);
    } else if a.TxLeave? {
      var h := w.threads[a.i].h;
      assert Answerable(w.s, h.slot, h.gen) ==> SlotOk(cfg, w.s, w.s.pend[h.slot]);
    }
  }

  // ---------------------------------------------------------------- teardown

  lemma {:induction false} SomeoneInside(threads: seq<Pc>) returns (i: nat)
    requires InsideCount(threads) > 0
    ensures i < |threads| && Inside(threads[i])
  {
    if Inside(threads[0]) {
      i := 0;
    } else {
      i := SomeoneInside(threads[1..]);
      i := i + 1;
    }
  }

  lemma NobodyInside(threads: seq<Pc>, i: nat)
    requires InsideCount(threads) == 0 && i < |threads|
    ensures !Inside(threads[i])
  {
    InsideUpdate(threads, i, threads[i]);
  }

  /** Once cleanup has left its wait, no completer is inside and none ever enters again. */
  lemma {:induction false} NobodyEntersAfterCleanup(cfg: Config, w: World, acts: seq<Action>, i: nat)
    requires ConfigOk(cfg) && WorldOk(cfg, w) && Feasible(cfg, w, acts) && i < |w.threads|
    requires w.cleaner.Passed? || w.cleaner.Cleaned?
    ensures var w' := Run(cfg, w, acts);
            (w'.cleaner.Passed? || w'.cleaner.Cleaned?) && |w'.threads| == |w.threads| && !Inside(w'.threads[i])
    decreases |acts|
  {
    if |acts| == 0 {
      NobodyInside(w.threads, i);
    } else {
      StepOk(cfg, w, acts[0]);
      NobodyEntersAfterCleanup(cfg, Apply(cfg, w, acts[0]), acts[1..], i);
    }
  }

  /** How many more lock operations a completer that is inside takes to get out. */
  function Effort(t: Pc): nat {
    match t
    case WantTx(_, _) => 4
    case InTx(_, _) => 3
    case WantExit(_, _) => 2
    case InExit(_, _) => 1
    case _ => 0
  }

  function Efforts(threads: seq<Pc>): nat {
    if |threads| == 0 then 0 else Effort(threads[0]) + Efforts(threads[1..])
  }

  /** A lock operation of a completer that is inside. */
  predicate OnTheWayOut(a: Action) { a.TxEnter? || a.TxLeave? || a.ExitEnter? || a.ExitLeave? }

  function WaysOut(acts: seq<Action>): nat {
    if |acts| == 0 then 0 else One(OnTheWayOut(acts[0])) + WaysOut(acts[1..])
  }

  /** Once the gate is closed, each lock operation of a completer inside brings the way out one step
      nearer, and nothing else any thread does makes it longer or shorter. */
  lemma StepShortensWayOut(cfg: Config, w: World, a: Action)
    requires w.dying && Enabled(cfg, w, a)
    ensures var w' := Apply(cfg, w, a); w'.dying && Efforts(w'.threads) + One(OnTheWayOut(a)) == Efforts(w.threads)
  {
    if OfThread(a) {
      EffortsUpdate(w.threads, a.i, Apply(cfg, w, a).threads[a.i]);
    }
  }

  lemma {:induction false} NoEffortMeansOut(threads: seq<Pc>)
    ensures Efforts(threads) == 0 <==> InsideCount(threads) == 0
  {
    if |threads| > 0 {
      NoEffortMeansOut(threads[1..]);
    }
  }

  /** On every run from there, whatever the schedule, what the completers inside have done and what they
      still have to do adds up to the same number; and cleanup has nobody left to wait for exactly when
      nothing is left to do. */
  lemma {:induction false} WayOutIsBounded(cfg: Config, w: World, acts: seq<Action>)
    requires ConfigOk(cfg) && WorldOk(cfg, w) && w.dying && Feasible(cfg, w, acts)
    ensures var w' := Run(cfg, w, acts);
            WaysOut(acts) + Efforts(w'.threads) == Efforts(w.threads) && (w'.active == 0 <==> Efforts(w'.threads) == 0)
    decreases |acts|
  {
    if |acts| == 0 {
      NoEffortMeansOut(w.threads);
    } else {
      StepShortensWayOut(cfg, w, acts[0]);
      StepOk(cfg, w, acts[0]);
      WayOutIsBounded(cfg, Apply(cfg, w, acts[0]), acts[1..]);
    }
  }

  lemma {:induction false} EffortsUpdate(threads: seq<Pc>, i: nat, t: Pc)
    requires i < |threads|
    ensures Efforts(threads[i := t]) == Efforts(threads) - Effort(threads[i]) + Effort(t)
  {
    if i == 0 {
      assert threads[i := t][1..] == threads[1..];
    } else {
      assert threads[i := t][1..] == threads[1..][i - 1 := t];
      EffortsUpdate(threads[1..], i - 1, t);
    }
  }

  /** Lock operations that may have to happen before cleanup finds nobody inside: of those inside, of a
      completer at the gate, which may still get in, of the dispatcher and of cleanup itself. */
  function Remaining(w: World): nat {
    Efforts(w.threads) + AtGates(w.threads) + One(w.disp.Some?) + One(w.cleaner.Holding?)
  }

  function AtGates(threads: seq<Pc>): nat {
    if |threads| == 0 then 0 else 5 * One(threads[0].InGate?) + AtGates(threads[1..])
  }

  lemma {:induction false} AtGatesUpdate(threads: seq<Pc>, i: nat, t: Pc)
    requires i < |threads|
    ensures AtGates(threads[i := t]) == AtGates(threads) - 5 * One(threads[i].InGate?) + 5 * One(t.InGate?)
  {
    if i == 0 {
      assert threads[i := t][1..] == threads[1..];
    } else {
      assert threads[i := t][1..] == threads[1..][i - 1 := t];
      AtGatesUpdate(threads[1..], i - 1, t);
    }
  }

  predicate Waiting(w: World) {
    w.cleaner.WantLock? || w.cleaner.Holding? || w.cleaner.Sleeping? || w.cleaner.Awake?
  }

  predicate Closer(w: World, w': World) { w'.cleaner.Passed? || (Waiting(w') && Remaining(w') < Remaining(w)) }

  predicate GateOk(cfg: Config, w: World) {
    w.active == InsideCount(w.threads) && LocksOk(w) && CleanerOk(w)
    && (w.disp.Some? ==> FrameOk(cfg, w.s, w.disp.value))
  }

  lemma GateLeaveCloser(cfg: Config, w: World, i: nat)
    requires GateOk(cfg, w) && Waiting(w) && At(w, i) && w.threads[i].InGate? && w.pendLock == Some(Completer(i))
    ensures Closer(w, Apply(cfg, w, GateLeave(i)))
  {
    EffortsUpdate(w.threads, i, Apply(cfg, w, GateLeave(i)).threads[i]);
    AtGatesUpdate(w.threads, i, Apply(cfg, w, GateLeave(i)).threads[i]);
  }

  lemma ExitLeaveCloser(cfg: Config, w: World, i: nat)
    requires GateOk(cfg, w) && Waiting(w) && At(w, i) && w.threads[i].InExit? && w.pendLock == Some(Completer(i))
    ensures Enabled(cfg, w, ExitLeave(i)) && Closer(w, Apply(cfg, w, ExitLeave(i)))
  {
    InsideUpdate(w.threads, i, w.threads[i]);
    EffortsUpdate(w.threads, i, Apply(cfg, w, ExitLeave(i)).threads[i]);
    AtGatesUpdate(w.threads, i, Apply(cfg, w, ExitLeave(i)).threads[i]);
  }

  /** Whoever holds pending_lock can let go of it at once. */
  lemma PendHolderLetsGo(cfg: Config, w: World) returns (a: Action)
    requires GateOk(cfg, w) && Waiting(w) && w.pendLock.Some?
    ensures Enabled(cfg, w, a) && Closer(w, Apply(cfg, w, a)) && Apply(cfg, w, a).pendLock.None?
  {
    if w.pendLock == Some(Cleaner) {
      a := CleanTest;
    } else {
      var i := w.pendLock.value.i;
      assert HoldsPend(w, i);
      if w.threads[i].InGate? {
        a := GateLeave(i);
        GateLeaveCloser(cfg, w, i);
      } else {
        a := ExitLeave(i);
        ExitLeaveCloser(cfg, w, i);
      }
    }
  }

  /** So can whoever holds tx_buf_mutex, without waiting for pending_lock or taking it. */
  lemma TxHolderLetsGo(cfg: Config, w: World) returns (a: Action)
    requires GateOk(cfg, w) && Waiting(w) && w.txLock.Some?
    ensures Enabled(cfg, w, a) && Closer(w, Apply(cfg, w, a))
    ensures Apply(cfg, w, a).txLock.None? && Apply(cfg, w, a).pendLock == w.pendLock
  {
    if w.disp.Some? {
      a := DispatchLeave;
    } else {
      var i := w.txLock.value.i;
      assert w.threads[i].InTx?;
      a := TxLeave(i);
      EffortsUpdate(w.threads, i, Apply(cfg, w, a).threads[i]);
      AtGatesUpdate(w.threads, i, Apply(cfg, w, a).threads[i]);
    }
  }

  /** With both locks free, a completer that is inside can take the one it wants. */
  lemma InsiderAdvances(cfg: Config, w: World) returns (a: Action)
    requires GateOk(cfg, w) && Waiting(w) && w.active > 0 && w.pendLock.None? && w.txLock.None?
    ensures Enabled(cfg, w, a) && Closer(w, Apply(cfg, w, a))
  {
    var i := SomeoneInside(w.threads);
    assert !HoldsPend(w, i) && !w.threads[i].InTx?;
    a := if w.threads[i].WantTx? then TxEnter(i) else ExitEnter(i);
    EffortsUpdate(w.threads, i, Apply(cfg, w, a).threads[i]);
    AtGatesUpdate(w.threads, i, Apply(cfg, w, a).threads[i]);
  }

  /** While anyone is inside or holds a lock, someone can make progress. */
  lemma SomeoneGoesOn(cfg: Config, w: World) returns (a: Action)
    requires GateOk(cfg, w) && Waiting(w) && (w.active > 0 || w.pendLock.Some? || w.txLock.Some?)
    ensures Enabled(cfg, w, a) && Closer(w, Apply(cfg, w, a))
  {
    if w.pendLock.Some? {
      a := PendHolderLetsGo(cfg, w);
    } else if w.txLock.Some? {
      a := TxHolderLetsGo(cfg, w);
    } else {
      a := InsiderAdvances(cfg, w);
    }
  }

  /** A waiting cleanup is never stuck: from every reachable state some continuation, in which each
      step is a lock holder letting go or a completer advancing, brings it past its wait. */
  lemma {:induction false} CleanupCanPass(cfg: Config, w: World) returns (acts: seq<Action>)
    requires ConfigOk(cfg) && WorldOk(cfg, w) && Waiting(w)
    ensures Feasible(cfg, w, acts) && Run(cfg, w, acts).cleaner.Passed?
    ensures |acts| <= Remaining(w) + 2
    decreases Remaining(w)
  {
    if w.active > 0 || w.pendLock.Some? || w.txLock.Some? {
      var a := SomeoneGoesOn(cfg, w);
      StepOk(cfg, w, a);
      var w1 := Apply(cfg, w, a);
      var rest := [];
      if !w1.cleaner.Passed? {
        rest := CleanupCanPass(cfg, w1);
      }
      acts := [a] + rest;
      assert acts[0] == a && acts[1..] == rest;
    } else {
      acts := LastSteps(cfg, w);
    }
  }

  /** With nobody inside and both locks free, cleanup takes the lock, looks and goes on. */
  lemma LastSteps(cfg: Config, w: World) returns (acts: seq<Action>)
    requires GateOk(cfg, w) && Waiting(w) && w.active == 0 && w.pendLock.None? && w.txLock.None?
    ensures Feasible(cfg, w, acts) && Run(cfg, w, acts).cleaner.Passed? && |acts| == 2
  {
    acts := [CleanEnter, CleanTest];
    var w1 := Apply(cfg, w, CleanEnter);
    var w2 := Apply(cfg, w1, CleanTest);
    assert acts[1..] == [CleanTest] && [CleanTest][1..] == [];
    assert Feasible(cfg, w2, []) && Feasible(cfg, w1, [CleanTest]);
  }

  /** The gate's counter is the number of completers inside, in every reachable state. */
  lemma GateCountsCompleters(cfg: Config, n: nat, acts: seq<Action>)
    requires ConfigOk(cfg) && Feasible(cfg, Boot(cfg, n), acts)
    ensures var w := Run(cfg, Boot(cfg, n), acts);
            w.active == InsideCount(w.threads) && (w.cleaner.Sleeping? ==> w.active > 0)
  {
    BootOk(cfg, n);
    RunOk(cfg, Boot(cfg, n), acts);
  }

  /** A handle kept from one parking fits a later parking of the same slot exactly when a multiple of
      2^32 parkings lie between them: that is the bound on how long a stale handle may be kept. */
  lemma TokenFitsAgainIff(s: State, t: State, slot: nat, tag: nat, fid: nat, count: nat)
    requires slot < |s.pend| && slot < |t.pend| && |s.reqs| > 0 && |t.reqs| > 0 && s.pendGen <= t.pendGen
    ensures Answerable(Park(t, slot, tag, fid, count), slot, Park(s, slot, tag, fid, count).pend[slot].gen)
            <==> (t.pendGen - s.pendGen) % MOD32 == 0
  {
    var a, b := s.pendGen + 1, t.pendGen + 1;
    assert b - a == t.pendGen - s.pendGen;
    assert (b - a) % MOD32 == 0 <==> a % MOD32 == b % MOD32;
  }
}
