/**
 * What dispatch, completion and cleanup keep of the whole server: every request received is
 * answered once, parked, or dropped; parked reads have distinct tags and fids and fit the
 * negotiated message size; and a handle can only ever reach the read it was issued for.
 */
module ServerInvariant {
  import opened Bytes
  import opened Traces
  import opened Session
  import opened SessionInvariant
  import opened SessionKept
  import opened Dispatch

  // ---------------------------------------------------------------- where a request is

  function Replies(sent: Trace<Reply>, r: nat): nat {
    match sent
    case Start => 0
    case Then(before, m) => Replies(before, r) + One(m.rid == r)
  }

  function Drops(dropped: Trace<nat>, r: nat): nat {
    match dropped
    case Start => 0
    case Then(before, d) => Drops(before, r) + One(d == r)
  }

  predicate ParkedAs(p: PendingRead, r: nat) { p.inUse && p.rid == r }

  function Parkings(pend: seq<PendingRead>, r: nat): nat {
    if |pend| == 0 then 0 else One(ParkedAs(pend[0], r)) + Parkings(pend[1..], r)
  }

  lemma {:induction false} ParkingsUpdate(pend: seq<PendingRead>, k: nat, p: PendingRead, r: nat)
    requires k < |pend|
    ensures Parkings(pend[k := p], r) == Parkings(pend, r) - One(ParkedAs(pend[k], r)) + One(ParkedAs(p, r))
    ensures Parkings(pend, r) >= One(ParkedAs(pend[k], r))
  {
    if k == 0 {
      assert pend[k := p][1..] == pend[1..];
    } else {
      assert pend[k := p][1..] == pend[1..][k - 1 := p];
      ParkingsUpdate(pend[1..], k - 1, p, r);
    }
  }

  lemma {:induction false} ParkingsPrefix(pend: seq<PendingRead>, n: nat, r: nat)
    requires n < |pend|
    ensures Parkings(pend[..n + 1], r) == Parkings(pend[..n], r) + One(ParkedAs(pend[n], r))
  {
    if n > 0 {
      assert pend[..n + 1][1..] == pend[1..][..n] && pend[..n][1..] == pend[1..][..n - 1];
      ParkingsPrefix(pend[1..], n - 1, r);
    }
  }

  lemma {:induction false} NoParkings(pend: seq<PendingRead>, r: nat)
    requires forall k :: 0 <= k < |pend| ==> !pend[k].inUse
    ensures Parkings(pend, r) == 0
  {
    if |pend| > 0 {
      assert !pend[0].inUse;
      NoParkings(pend[1..], r);
    }
  }

  /** Replies sent to request r, slots it is parked in, and times it was dropped. */
  function Total(s: State, r: nat): nat {
    Replies(s.sent, r) + Parkings(s.pend, r) + Drops(s.dropped, r)
  }

  /** Each of the first n requests, and no other, is in exactly one place. */
  ghost predicate Balanced(s: State, n: nat) {
    forall r: nat :: Total(s, r) == One(r < n)
  }

  /** Every reply carries the tag of the request it answers. */
  predicate SentOk(sent: Trace<Reply>, reqs: seq<nat>) {
    sent.Then? ==> sent.last.rid < |reqs| && sent.last.tag == reqs[sent.last.rid] && SentOk(sent.before, reqs)
  }

  // ---------------------------------------------------------------- parked reads and handles

  predicate SlotOk(cfg: Config, s: State, p: PendingRead) {
    p.inUse ==> && p.rid < |s.reqs| && p.tag == s.reqs[p.rid]
                && 11 + p.count <= cfg.maxMessage
                && (s.x.msize > 11 ==> 11 + p.count <= s.x.msize)
  }

  predicate Apart(p: PendingRead, q: PendingRead) {
    p.inUse && q.inUse ==> p.tag != q.tag && p.fid != q.fid
  }

  predicate PendOk(cfg: Config, s: State) {
    && (forall k :: 0 <= k < |s.pend| ==> SlotOk(cfg, s, s.pend[k]) && s.pend[k].gen <= s.pendGen)
    && (forall i, k :: 0 <= i < k < |s.pend| ==> Apart(s.pend[i], s.pend[k]))
  }

  predicate HandleOk(s: State, h: Handle) {
    && h.slot < |s.pend| && h.gen <= s.pendGen && h.rid < |s.reqs|
    && (s.pend[h.slot].gen == h.gen ==> s.pend[h.slot].rid == h.rid)
  }

  predicate HandlesOk(s: State) { forall h :: h in s.issued ==> HandleOk(s, h) }

  /** The invariant, with the first n requests accounted for. */
  ghost predicate Sound(cfg: Config, s: State, n: nat) {
    && SessionOk(s.x)
    && Balanced(s, n)
    && SentOk(s.sent, s.reqs)
    && PendOk(cfg, s)
    && HandlesOk(s)
  }

  ghost predicate ServerOk(cfg: Config, s: State) { Sound(cfg, s, |s.reqs|) }

  /** Assumptions on the build: a transmit buffer for every fixed reply, and eight-bit table sizes. */
  predicate ConfigOk(cfg: Config) {
    && MAX_FIXED_REPLY <= cfg.maxMessage < MOD32
    && cfg.maxFids <= 255 && cfg.unamePool <= 255 && cfg.authPool <= 255 && cfg.maxPending <= 255
  }

  /** The contract of fs_ops->read: no more bytes than asked for. */
  predicate FsHonest(cfg: Config, s: State, msg: seq<byte>, env: Env) {
    |msg| >= 23 && msg[4] == TREAD ==> |env.data| <= U32(msg, 19) && |env.data| <= ReadLimit(cfg, s.x.msize)
  }

  // ---------------------------------------------------------------- the pieces

  lemma {:induction false} SentOkGrows(sent: Trace<Reply>, reqs: seq<nat>, t: nat)
    requires SentOk(sent, reqs)
    ensures SentOk(sent, reqs + [t])
  {
    if sent.Then? {
      SentOkGrows(sent.before, reqs, t);
    }
  }

  lemma InitialOk(cfg: Config)
    requires ConfigOk(cfg)
    ensures ServerOk(cfg, Initial(cfg))
  {
    var s := Initial(cfg);
    forall i: nat ensures Holders(s.x.fids, i) == 0 && AuthHolders(s.x.fids, i) == 0 {
      NoHolders(s.x.fids, i);
    }
    forall r: nat ensures Total(s, r) == 0 {
      NoParkings(s.pend, r);
    }
  }

  lemma ReceiveOk(cfg: Config, s: State, msg: seq<byte>)
    requires ServerOk(cfg, s) && |msg| >= 7
    ensures Sound(cfg, Receive(s, msg), |s.reqs|)
  {
    var s' := Receive(s, msg);
    SentOkGrows(s.sent, s.reqs, U16(msg, 5));
    forall r: nat ensures Total(s', r) == One(r < |s.reqs|) {
      assert Total(s', r) == Total(s, r);
    }
  }

  /** The reply to the request in hand settles it. */
  lemma RespondOk(cfg: Config, s: State, tag: nat, body: Body)
    requires |s.reqs| > 0 && Sound(cfg, s, |s.reqs| - 1) && tag == s.reqs[|s.reqs| - 1]
    requires Size(body) <= cfg.maxMessage
    ensures ServerOk(cfg, Respond(cfg, s, tag, body))
  {
    var s' := Respond(cfg, s, tag, body);
    forall r: nat ensures Total(s', r) == One(r < |s.reqs|) {
      assert Total(s', r) == Total(s, r) + One(r == |s.reqs| - 1);
    }
  }

  lemma FinishOk(cfg: Config, s: State, tag: nat, d: Done)
    requires |s.reqs| > 0 && Sound(cfg, s, |s.reqs| - 1) && tag == s.reqs[|s.reqs| - 1]
    requires Size(d.body) <= cfg.maxMessage && SessionOk(d.x) && d.x.msize == s.x.msize
    ensures ServerOk(cfg, Finish(cfg, s, tag, d))
  {
    var s1 := s.(x := d.x);
    forall r: nat ensures Total(s1, r) == One(r < |s.reqs| - 1) {
      assert Total(s1, r) == Total(s, r);
    }
    RespondOk(cfg, s1, tag, d.body);
  }

  /** A reply to a parked read and the release of its slot cancel out. */
  lemma AnswerParkedOk(cfg: Config, s: State, n: nat, i: nat, body: Body)
    requires Sound(cfg, s, n) && i < |s.pend| && s.pend[i].inUse && Size(body) <= cfg.maxMessage
    ensures Sound(cfg, Unpark(Post(cfg, s, s.pend[i].rid, s.pend[i].tag, body), i), n)
  {
    var p := s.pend[i];
    var s' := Unpark(Post(cfg, s, p.rid, p.tag, body), i);
    forall r: nat ensures Total(s', r) == One(r < n) {
      ParkingsUpdate(s.pend, i, p.(inUse := false), r);
      assert Total(s', r) == Total(s, r);
    }
    assert SlotOk(cfg, s, p);
    forall h | h in s'.issued ensures HandleOk(s', h) {
      assert HandleOk(s, h);
    }
  }

  lemma {:induction false} CancelOk(cfg: Config, s: State, n: nat, sel: Selector, i: nat)
    requires ConfigOk(cfg) && Sound(cfg, s, n) && i <= |s.pend|
    ensures Sound(cfg, CancelFrom(cfg, s, sel, i), n)
    decreases |s.pend| - i
  {
    if i < |s.pend| {
      if Selects(sel, s.pend[i]) {
        AnswerParkedOk(cfg, s, n, i, Rread([]));
        CancelOk(cfg, CancelOne(cfg, s, i), n, sel, i + 1);
      } else {
        CancelOk(cfg, s, n, sel, i + 1);
      }
    }
  }

  lemma {:induction false} DropRidsCounts(pend: seq<PendingRead>, n: nat, dropped: Trace<nat>, r: nat)
    requires n <= |pend|
    ensures Drops(DropRids(pend, n, dropped), r) == Drops(dropped, r) + Parkings(pend[..n], r)
  {
    if n > 0 {
      DropRidsCounts(pend, n - 1, dropped, r);
      ParkingsPrefix(pend, n - 1, r);
    }
  }

  /** Dropping the parked reads moves them, and the message size may then change. */
  lemma DropParkedOk(cfg: Config, s: State, n: nat, x: Session)
    requires Sound(cfg, s, n) && SessionOk(x)
    ensures Sound(cfg, DropParked(s).(x := x), n)
  {
    var s' := DropParked(s).(x := x);
    forall r: nat ensures Total(s', r) == One(r < n) {
      DropRidsCounts(s.pend, |s.pend|, s.dropped, r);
      assert s.pend[..|s.pend|] == s.pend;
      NoParkings(s'.pend, r);
      assert Total(s', r) == Total(s, r);
    }
    forall h | h in s'.issued ensures HandleOk(s', h) {
      assert HandleOk(s, h);
    }
  }

  // ---------------------------------------------------------------- Tread

  /** Parking the request in hand: it is accounted for by its slot, under a token no handle has. */
  lemma ParkOk(cfg: Config, s: State, slot: nat, tag: nat, fid: nat, count: nat)
    requires |s.reqs| > 0 && Sound(cfg, s, |s.reqs| - 1) && tag == s.reqs[|s.reqs| - 1]
    requires slot < |s.pend| && !s.pend[slot].inUse && s.pendGen + 1 < MOD32
    requires forall k :: 0 <= k < |s.pend| && s.pend[k].inUse ==> s.pend[k].tag != tag && s.pend[k].fid != fid
    requires 11 + count <= cfg.maxMessage && (s.x.msize > 11 ==> 11 + count <= s.x.msize)
    ensures ServerOk(cfg, Park(s, slot, tag, fid, count))
    ensures forall h :: h in s.issued ==> h.gen < Park(s, slot, tag, fid, count).pend[slot].gen
  {
    var s' := Park(s, slot, tag, fid, count);
    var p := s'.pend[slot];
    forall r: nat ensures Total(s', r) == One(r < |s.reqs|) {
      ParkingsUpdate(s.pend, slot, p, r);
      assert Total(s', r) == Total(s, r) + One(r == |s.reqs| - 1);
    }
    forall k | 0 <= k < |s'.pend| ensures SlotOk(cfg, s', s'.pend[k]) && s'.pend[k].gen <= s'.pendGen {
      assert SlotOk(cfg, s, s.pend[k]);
    }
    forall h | h in s.issued ensures h.gen < p.gen && HandleOk(s', h) {
      assert HandleOk(s, h);
    }
  }

  lemma UnparkOk(cfg: Config, s: State, slot: nat)
    requires |s.reqs| > 0 && ServerOk(cfg, s) && slot < |s.pend| && ParkedAs(s.pend[slot], |s.reqs| - 1)
    ensures Sound(cfg, Unpark(s, slot), |s.reqs| - 1)
  {
    var s' := Unpark(s, slot);
    forall r: nat ensures Total(s', r) == One(r < |s.reqs| - 1) {
      ParkingsUpdate(s.pend, slot, s'.pend[slot], r);
      assert Total(s', r) == Total(s, r) - One(r == |s.reqs| - 1);
    }
    forall h | h in s'.issued ensures HandleOk(s', h) {
      assert HandleOk(s, h);
    }
  }

  lemma SessionSwapped(cfg: Config, s: State, n: nat, x: Session)
    requires Sound(cfg, s, n) && SessionOk(x) && x.msize == s.x.msize
    ensures Sound(cfg, s.(x := x), n)
  {
    var s' := s.(x := x);
    forall r: nat ensures Total(s', r) == One(r < n) {
      assert Total(s', r) == Total(s, r);
    }
  }

  /** Handing the filesystem the handle of the read just parked. */
  lemma IssueOk(cfg: Config, s: State, slot: nat)
    requires ServerOk(cfg, s) && |s.reqs| > 0 && slot < |s.pend| && s.pend[slot].rid == |s.reqs| - 1
    ensures ServerOk(cfg, s.(issued := s.issued + {Handle(slot, s.pend[slot].gen, |s.reqs| - 1)}))
  {
    var s' := s.(issued := s.issued + {Handle(slot, s.pend[slot].gen, |s.reqs| - 1)});
    forall r: nat ensures Total(s', r) == One(r < |s.reqs|) {
      assert Total(s', r) == Total(s, r);
    }
    forall h | h in s'.issued ensures HandleOk(s', h) {
      assert h in s.issued ==> HandleOk(s, h);
    }
  }

  lemma ReadFileOk(cfg: Config, s: State, i: nat, tag: nat, count: nat, env: Env)
    requires ConfigOk(cfg) && |s.reqs| > 0 && Sound(cfg, s, |s.reqs| - 1) && tag == s.reqs[|s.reqs| - 1]
    requires i < |s.x.fids| && s.x.fids[i].inUse && s.x.fids[i].isOpen && s.x.fids[i].openMode % 4 != OWRITE
    requires count <= ReadLimit(cfg, s.x.msize) && |env.data| <= count && s.pendGen + 1 < MOD32
    ensures ServerOk(cfg, ReadFile(cfg, s, s.x.fids[i], tag, count, env))
  {
    var e := s.x.fids[i];
    assert EntryOpenOk(Replay(s.x.log), e);
    IdentityShown(s.x, i);
    var called := s.x.(log := Then(s.x.log, FsRead(e.fid, FidIdentity(s.x, e))));
    if !cfg.canDefer {
      FinishOk(cfg, s, tag, Done(called, ReadReply(env)));
    } else {
      CancelKeeps(cfg, s, OfFidOrTag(e.fid, tag), 0);
      var s1 := Cancel(cfg, s, OfFidOrTag(e.fid, tag)).(x := called);
      ClearedOk(cfg, s, e.fid, tag, called);
      if FreeSlot(s1.pend) == |s1.pend| {
        RespondOk(cfg, s1, tag, if env.rc == DEFER then Rread([]) else ReadReply(env));
      } else {
        ParkedReadOk(cfg, s1, FreeSlot(s1.pend), tag, e.fid, count, env);
      }
    }
  }

  /** Once older reads on the fid or tag are cancelled, none is parked on either. */
  lemma ClearedOk(cfg: Config, s: State, fid: nat, tag: nat, called: Session)
    requires ConfigOk(cfg) && |s.reqs| > 0 && Sound(cfg, s, |s.reqs| - 1)
    requires SessionOk(called) && called.msize == s.x.msize
    ensures var s1 := Cancel(cfg, s, OfFidOrTag(fid, tag)).(x := called);
            && s1.reqs == s.reqs && s1.pendGen == s.pendGen && |s1.pend| == |s.pend| && Sound(cfg, s1, |s.reqs| - 1)
            && forall k :: 0 <= k < |s1.pend| && s1.pend[k].inUse ==> s1.pend[k].fid != fid && s1.pend[k].tag != tag
  {
    var sel := OfFidOrTag(fid, tag);
    CancelOk(cfg, s, |s.reqs| - 1, sel, 0);
    CancelKeeps(cfg, s, sel, 0);
    SessionSwapped(cfg, Cancel(cfg, s, sel), |s.reqs| - 1, called);
  }

  /** A free slot is taken; it stays taken only if the filesystem defers. */
  lemma ParkedReadOk(cfg: Config, s1: State, slot: nat, tag: nat, fid: nat, count: nat, env: Env)
    requires ConfigOk(cfg) && |s1.reqs| > 0 && Sound(cfg, s1, |s1.reqs| - 1) && tag == s1.reqs[|s1.reqs| - 1]
    requires slot < |s1.pend| && !s1.pend[slot].inUse && s1.pendGen + 1 < MOD32
    requires forall k :: 0 <= k < |s1.pend| && s1.pend[k].inUse ==> s1.pend[k].fid != fid && s1.pend[k].tag != tag
    requires count <= ReadLimit(cfg, s1.x.msize) && |env.data| <= count
    ensures var s2 := Park(s1, slot, tag, fid, count);
            var h := Handle(slot, s2.pend[slot].gen, |s1.reqs| - 1);
            ServerOk(cfg, if env.rc == DEFER then s2.(issued := s2.issued + {h})
                          else Respond(cfg, Unpark(s2, slot), tag, ReadReply(env)))
  {
    ParkOk(cfg, s1, slot, tag, fid, count);
    var s2 := Park(s1, slot, tag, fid, count);
    if env.rc == DEFER {
      IssueOk(cfg, s2, slot);
    } else {
      UnparkOk(cfg, s2, slot);
      RespondOk(cfg, Unpark(s2, slot), tag, ReadReply(env));
    }
  }

  lemma ReadOk(cfg: Config, s: State, msg: seq<byte>, env: Env)
    requires ConfigOk(cfg) && |msg| >= 7 && msg[4] == TREAD && |s.reqs| > 0 && Sound(cfg, s, |s.reqs| - 1)
    requires U16(msg, 5) == s.reqs[|s.reqs| - 1] && FsHonest(cfg, s, msg, env) && s.pendGen + 1 < MOD32
    ensures ServerOk(cfg, HandleTread(cfg, s, msg, env))
  {
    var tag := U16(msg, 5);
    if |msg| < 23 {
      RespondOk(cfg, s, tag, Rerror(MalformedTread));
    } else {
      var offset, count := U64(msg, 11), U32(msg, 19);
      var i := FindFid(s.x.fids, U32(msg, 7));
      if i == |s.x.fids| {
        RespondOk(cfg, s, tag, Rerror(UnknownFid));
      } else {
        var e := s.x.fids[i];
        if e.isAuth {
          AuthReadKeeps(s.x, i, offset, count, env);
          FinishOk(cfg, s, tag, AuthRead(s.x, e, offset, count, env));
        } else if e.node == 0 {
          RespondOk(cfg, s, tag, Rerror(UnknownFid));
        } else if !e.isOpen {
          RespondOk(cfg, s, tag, Rerror(NotOpen));
        } else if e.openMode % 4 == OWRITE {
          RespondOk(cfg, s, tag, Rerror(NotOpenForReading));
        } else {
          var limit := ReadLimit(cfg, s.x.msize);
          ReadFileOk(cfg, s, i, tag, if count > limit then limit else count, env);
        }
      }
    }
  }

  // ---------------------------------------------------------------- the other handlers

  lemma VersionOk(cfg: Config, s: State, msg: seq<byte>, env: Env)
    requires ConfigOk(cfg) && |msg| >= 7 && |s.reqs| > 0 && Sound(cfg, s, |s.reqs| - 1)
    requires U16(msg, 5) == s.reqs[|s.reqs| - 1]
    ensures ServerOk(cfg, HandleTversion(cfg, s, msg, env))
  {
    match Negotiate(cfg, msg, env)
    case Refused(body) => RespondOk(cfg, s, U16(msg, 5), body);
    case Accepted(msize) =>
      ResetKeeps(cfg, s.x, msize);
      DropParkedOk(cfg, s, |s.reqs| - 1, ResetSession(cfg, s.x, msize));
      RespondOk(cfg, DropParked(s).(x := ResetSession(cfg, s.x, msize)), U16(msg, 5), Rversion(msize, true));
  }

  lemma FlushOk(cfg: Config, s: State, msg: seq<byte>)
    requires ConfigOk(cfg) && |msg| >= 9 && |s.reqs| > 0 && Sound(cfg, s, |s.reqs| - 1)
    requires U16(msg, 5) == s.reqs[|s.reqs| - 1]
    ensures ServerOk(cfg, HandleTflush(cfg, s, msg))
  {
    var sel := OfTag(U16(msg, 7));
    CancelOk(cfg, s, |s.reqs| - 1, sel, 0);
    CancelKeeps(cfg, s, sel, 0);
    RespondOk(cfg, Cancel(cfg, s, sel), U16(msg, 5), Rflush);
  }

  lemma ClunkOk(cfg: Config, s: State, msg: seq<byte>)
    requires ConfigOk(cfg) && |msg| >= 11 && |s.reqs| > 0 && Sound(cfg, s, |s.reqs| - 1)
    requires U16(msg, 5) == s.reqs[|s.reqs| - 1]
    ensures ServerOk(cfg, HandleTclunk(cfg, s, msg))
  {
    var fid := U32(msg, 7);
    if FindFid(s.x.fids, fid) == |s.x.fids| {
      RespondOk(cfg, s, U16(msg, 5), Rclunk);
    } else {
      CancelOk(cfg, s, |s.reqs| - 1, OfFid(fid), 0);
      CancelKeeps(cfg, s, OfFid(fid), 0);
      var s1 := Cancel(cfg, s, OfFid(fid));
      ClunkKeeps(cfg, s1.x, fid);
      FinishOk(cfg, s1, U16(msg, 5), Done(ClunkFid(cfg, s1.x, fid), Rclunk));
    }
  }

  /** Dispatch of one frame settles the request it carries and keeps everything else settled. */
  lemma ProcessOk(cfg: Config, s: State, msg: seq<byte>, env: Env)
    requires ConfigOk(cfg) && ServerOk(cfg, s) && FsHonest(cfg, s, msg, env) && s.pendGen + 1 < MOD32
    ensures ServerOk(cfg, Process(cfg, s, msg, env))
  {
    if HeaderOk(msg) {
      ReceiveOk(cfg, s, msg);
      HandlerOk(cfg, Receive(s, msg), Seen(msg, env), env);
    }
  }

  lemma HandlerOk(cfg: Config, s1: State, msg: seq<byte>, env: Env)
    requires ConfigOk(cfg) && WellFormed(msg) && |s1.reqs| > 0 && Sound(cfg, s1, |s1.reqs| - 1)
    requires U16(msg, 5) == s1.reqs[|s1.reqs| - 1] && FsHonest(cfg, s1, msg, env) && s1.pendGen + 1 < MOD32
    ensures ServerOk(cfg, Handle1(cfg, s1, msg, env))
  {
    var x, t, tag := s1.x, msg[4], U16(msg, 5);
    if t == TVERSION { VersionOk(cfg, s1, msg, env); }
    else if t == TAUTH { AuthKeeps(cfg, x, msg, env); FinishOk(cfg, s1, tag, HandleTauth(cfg, x, msg, env)); }
    else if t == TATTACH { AttachKeeps(cfg, x, msg, env); FinishOk(cfg, s1, tag, HandleTattach(cfg, x, msg, env)); }
    else if t == TFLUSH { FlushOk(cfg, s1, msg); }
    else if t == TWALK { WalkKeeps(cfg, x, msg, env); FinishOk(cfg, s1, tag, HandleTwalk(cfg, x, msg, env)); }
    else if t == TOPEN { OpenKeeps(cfg, x, msg, env); FinishOk(cfg, s1, tag, HandleTopen(cfg, x, msg, env)); }
    else if t == TCREATE { CreateKeeps(cfg, x, msg, env); FinishOk(cfg, s1, tag, HandleTcreate(cfg, x, msg, env)); }
    else if t == TREAD { ReadOk(cfg, s1, msg, env); }
    else if t == TWRITE { WriteKeeps(cfg, x, msg, env); FinishOk(cfg, s1, tag, HandleTwrite(cfg, x, msg, env)); }
    else if t == TCLUNK { ClunkOk(cfg, s1, msg); }
    else if t == TREMOVE { RemoveKeeps(cfg, x, msg, env); FinishOk(cfg, s1, tag, HandleTremove(cfg, x, msg, env)); }
    else if t == TSTAT { FinishOk(cfg, s1, tag, HandleTstat(cfg, x, msg, env)); }
    else if t == TWSTAT { FinishOk(cfg, s1, tag, HandleTwstat(x, msg)); }
    else { RespondOk(cfg, s1, tag, Rerror(NotSupported)); }
  }

  // ---------------------------------------------------------------- completion and cleanup

  lemma CompleteOk(cfg: Config, s: State, slot: nat, gen: nat, data: seq<byte>)
    requires ConfigOk(cfg) && ServerOk(cfg, s)
    ensures ServerOk(cfg, Complete(cfg, s, slot, gen, data).s)
    ensures Complete(cfg, s, slot, gen, data).rc != BuildFailed
  {
    if Answerable(s, slot, gen) {
      var p := s.pend[slot];
      assert SlotOk(cfg, s, p);
      AnswerParkedOk(cfg, s, |s.reqs|, slot, Rread(Clamp(cfg, p, data)));
    }
  }

  lemma CleanupOk(cfg: Config, s: State)
    requires ServerOk(cfg, s)
    ensures ServerOk(cfg, Cleanup(cfg, s))
    ensures forall k :: 0 <= k < |Cleanup(cfg, s).x.fids| ==> !Cleanup(cfg, s).x.fids[k].inUse
  {
    CleanupFidsKeeps(cfg, s.x, |s.x.fids|);
    DropParkedOk(cfg, s, |s.reqs|, CleanupFids(cfg, s.x, |s.x.fids|));
  }
}
