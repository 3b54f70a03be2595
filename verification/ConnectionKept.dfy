/** Every step of the connection keeps its invariant; so every held fid is bound, on every run. */
module ConnectionKept {
  import opened Bytes
  import opened Traces
  import opened Session
  import D = Dispatch
  import opened ServerFids
  import C = Client
  import opened R = ClientRuns
  import opened ClientShapes
  import opened Connection

  // ---------------------------------------------------------------- client steps

  /** More requests are on record, with tags not used before, and nothing is forgotten. */
  predicate Extends(y: Net, z: Net) {
    && (forall g :: g in y.asked ==> g in z.asked && z.asked[g] == y.asked[g])
    && (forall g :: g in z.asked ==> g in y.asked || y.cw.c.nextTag <= g < C.NOTAG)
    && y.gone <= z.gone && z.s == y.s && z.reached == y.reached && (y.started ==> z.started)
  }

  lemma FrameOkGrows(y: Net, z: Net, m: seq<byte>)
    requires Extends(y, z) && FrameOk(y.asked, y.gone, m)
    ensures FrameOk(z.asked, z.gone, m)
  {
  }

  lemma RepliesKept(y: Net, z: Net)
    requires NetOk(y) && Extends(y, z) && z.down == y.down
    ensures forall i :: 0 <= i < |z.down| ==> ReplyOk(z, z.down[i])
    ensures ParkedOk(z)
  {
    forall i | 0 <= i < |z.down| ensures ReplyOk(z, z.down[i]) {
      assert ReplyOk(y, y.down[i]);
    }
  }

  lemma CallKept(y: Net, z: Net, t: nat)
    requires Extends(y, z) && t < |y.cw.threads| == |z.cw.threads| && z.cw.threads[t] == y.cw.threads[t] && CallOk(y, t)
    requires Quiet(y.cw.c.slots, z.cw.c.slots) && y.cw.c.nextTag <= z.cw.c.nextTag
    requires z.started && !y.started ==> NoVersionInFlight(y.cw)
    ensures CallOk(z, t)
  {
    var p := z.cw.threads[t];
    if InFlight(p) {
      FrameOkGrows(y, z, p.job.frame);
    }
  }

  predicate SameOrOneMore(y: Net, z: Net) {
    || z.up == y.up
    || (|z.up| == |y.up| + 1 && z.up == y.up + [z.up[|y.up|]] && z.up[|y.up|].late == z.started
        && PacketOk(z, z.up[|y.up|]))
  }

  lemma PacketsKept(y: Net, z: Net)
    requires NetOk(y) && Extends(y, z) && SameOrOneMore(y, z)
    ensures Ordered(z.up) && forall i :: 0 <= i < |z.up| ==> PacketOk(z, z.up[i])
  {
    forall i | 0 <= i < |z.up| ensures PacketOk(z, z.up[i]) {
      if i < |y.up| {
        assert PacketOk(y, y.up[i]) && z.up[i] == y.up[i];
        FrameOkGrows(y, z, y.up[i].frame);
      }
    }
    forall i, j | 0 <= i < j < |z.up| && z.up[i].late ensures z.up[j].late {
      assert PacketOk(z, z.up[i]);
    }
  }

  predicate HeldKept(y: Net, z: Net) { forall f :: f in z.held ==> f !in z.gone && (f in y.held || Kept(z, f)) }

  lemma ClientKept(y: Net, z: Net, t: nat)
    requires NetOk(y) && Extends(y, z) && WorldOk(z.cw) && y.cw.c.nextTag <= z.cw.c.nextTag <= C.NOTAG && TagsUsed(z)
    requires t < |y.cw.threads| == |z.cw.threads| && z.cw.threads == y.cw.threads[t := z.cw.threads[t]]
    requires Quiet(y.cw.c.slots, z.cw.c.slots) && CallOk(z, t)
    requires z.started && !y.started ==> NoVersionInFlight(y.cw)
    requires z.down == y.down && SameOrOneMore(y, z) && HeldKept(y, z)
    ensures NetOk(z)
  {
    RepliesKept(y, z);
    PacketsKept(y, z);
    forall s | 0 <= s < |z.cw.threads| ensures CallOk(z, s) {
      if s != t {
        CallKept(y, z, s);
      }
    }
  }

  lemma IdleOk(y: Net, t: nat)
    requires t < |y.cw.threads| && y.cw.threads[t].Idle?
    ensures CallOk(y, t)
  {
  }

  /** The books of a launched request, and the frame sent for it, fit together. */
  lemma RecordedOk(y: Net, z: Net, kind: Kind, fid: nat, frame: seq<byte>)
    requires NetOk(y) && y.cw.c.nextTag < C.NOTAG && (kind.Version? ==> !y.started)
    requires FrameFor(kind, fid, if kind.Version? then C.NOTAG else y.cw.c.nextTag, frame)
    requires var r := Recorded(y, kind, fid, y.cw.c.nextTag);
             z.asked == r.asked && z.gone == r.gone && z.held == r.held && z.s == y.s && z.reached == y.reached
    requires z.started == (y.started || !kind.Version?)
    ensures Extends(y, z) && FrameOk(z.asked, z.gone, frame) && HeldKept(y, z)
    ensures PacketOk(z, Packet(frame, z.started))
    ensures z.cw.c.nextTag == y.cw.c.nextTag + 1 ==> TagsUsed(z)
  {
  }

  lemma LaunchKept(y: Net, z: Net, t: nat, kind: Kind, fid: nat, frame: seq<byte>)
    requires NetOk(y) && Extends(y, z) && WorldOk(z.cw) && z.cw.c.nextTag == y.cw.c.nextTag + 1 <= C.NOTAG
             && TagsUsed(z)
    requires t < |y.cw.threads| == |z.cw.threads| && z.cw.threads == y.cw.threads[t := z.cw.threads[t]]
    requires Quiet(y.cw.c.slots, z.cw.c.slots) && FrameOk(z.asked, z.gone, frame) && HeldKept(y, z)
    requires var p := z.cw.threads[t];
             p.Idle? || (p.Waiting? && p.job.kind == kind && p.job.fid == fid && p.job.tag == y.cw.c.nextTag
                         && p.job.frame == frame && p.job.wire == (if kind.Version? then C.NOTAG else p.job.tag)
                         && p.job.slot < |z.cw.c.slots|
                         && !z.cw.c.slots[p.job.slot].complete)
    requires kind.Version? == !z.started
    requires !kind.Version? ==> y.cw.c.nextTag in z.asked && z.asked[y.cw.c.nextTag] == Request(kind, fid)
    requires frame[4] == TVERSION <==> kind.Version?
    requires z.started && !y.started ==> NoVersionInFlight(y.cw)
    requires z.down == y.down && SameOrOneMore(y, z)
    ensures NetOk(z)
  {
    assert CallOk(z, t);
    ClientKept(y, z, t);
  }

  lemma BeginFails(y: Net, w: World, t: nat, kind: Kind, fid: nat, frame: seq<byte>, sent: bool)
    requires NetOk(y) && WorldOk(w) && y.cw.c.nextTag <= w.c.nextTag <= C.NOTAG && t < |y.cw.threads| == |w.threads|
    requires w.threads == y.cw.threads[t := w.threads[t]] && w.threads[t].Idle? && Quiet(y.cw.c.slots, w.c.slots)
    requires !kind.Version? ==> NoVersionInFlight(y.cw)
    ensures NetOk(Began(y, w, kind, fid, false, frame, sent))
  {
    var z := Began(y, w, kind, fid, false, frame, sent);
    IdleOk(z, t);
    ClientKept(y, z, t);
  }

  lemma BeginLaunched(y: Net, w: World, t: nat, kind: Kind, fid: nat, frame: seq<byte>, sent: bool)
    requires NetOk(y) && WorldOk(w) && w.c.nextTag == y.cw.c.nextTag + 1 <= C.NOTAG && t < |y.cw.threads| == |w.threads|
    requires w.threads == y.cw.threads[t := w.threads[t]] && Quiet(y.cw.c.slots, w.c.slots)
    requires var p := w.threads[t];
             p.Idle? || (p.Waiting? && p.job.kind == kind && p.job.fid == fid && p.job.tag == y.cw.c.nextTag
                         && p.job.frame == frame && p.job.wire == (if kind.Version? then C.NOTAG else p.job.tag)
                         && p.job.slot < |w.c.slots|
                         && !w.c.slots[p.job.slot].complete)
    requires FrameFor(kind, fid, if kind.Version? then C.NOTAG else y.cw.c.nextTag, frame)
    requires (kind.Version? ==> !y.started) && (!kind.Version? ==> NoVersionInFlight(y.cw))
    ensures NetOk(Began(y, w, kind, fid, true, frame, sent))
  {
    var z := Began(y, w, kind, fid, true, frame, sent);
    RecordedOk(y, z, kind, fid, frame);
    assert sent ==> z.up[|y.up|] == Packet(frame, z.started);
    LaunchKept(y, z, t, kind, fid, frame);
  }

  lemma BeginKept(cfg: Config, y: Net, e: Turn)
    requires NetOk(y) && e.CallBegins? && Possible(y, e)
    ensures NetOk(Step(cfg, y, e))
  {
    var w, f := Apply(y.cw, Begin(e.t, e.kind, e.fid, e.retries, e.built, e.frame, e.sent)), FidOf(y.cw, e.kind, e.fid);
    StepOk(y.cw, Begin(e.t, e.kind, e.fid, e.retries, e.built, e.frame, e.sent));
    BeginShape(y.cw, e.t, e.kind, e.fid, e.retries, e.built, e.frame, e.sent);
    if Launches(y.cw, e.kind, e.built) {
      BeginLaunched(y, w, e.t, e.kind, f, e.frame, e.sent);
    } else {
      BeginFails(y, w, e.t, e.kind, f, e.frame, e.sent);
    }
  }

  /** A reply in the slot that lets the request succeed means that its fid is kept. */
  lemma SuccessKept(y: Net, t: nat)
    requires NetOk(y) && t < |y.cw.threads| && InFlight(y.cw.threads[t])
    ensures var job := y.cw.threads[t].job;
            && job.slot < |y.cw.c.slots|
            && (y.cw.c.slots[job.slot].complete && TakesFid(job.kind) && Success(Outcome(job, y.cw.c.slots[job.slot]))
                ==> Kept(y, job.fid))
  {
    assert ThreadOk(y.cw, t) && CallOk(y, t);
  }

  /** A thread goes idle, with a fid to hold if its request succeeded. */
  lemma ReturnKept(y: Net, w: World, t: nat, r: Result)
    requires NetOk(y) && t < |y.cw.threads| && WorldOk(w) && w.c.nextTag == y.cw.c.nextTag
    requires w.threads == y.cw.threads[t := Idle(r)] && Quiet(y.cw.c.slots, w.c.slots)
    requires r.Answered? && TakesFid(r.job.kind) && Success(r) ==> Kept(y, r.job.fid)
    ensures NetOk(Returns(y.(cw := w), t))
  {
    var z := Returns(y.(cw := w), t);
    IdleOk(z, t);
    ClientKept(y, z, t);
  }

  lemma WakeKept(cfg: Config, y: Net, t: nat)
    requires NetOk(y) && Possible(y, CallWakes(t))
    ensures NetOk(Step(cfg, y, CallWakes(t)))
  {
    var job := y.cw.threads[t].job;
    var r := Outcome(job, y.cw.c.slots[job.slot]);
    StepOk(y.cw, Wake(t));
    SuccessKept(y, t);
    EndShape(y.cw, t, job, r);
    ReturnKept(y, Apply(y.cw, Wake(t)), t, r);
  }

  lemma FlushReturnKept(cfg: Config, y: Net, t: nat)
    requires NetOk(y) && Possible(y, FlushReturns(t))
    ensures NetOk(Step(cfg, y, FlushReturns(t)))
  {
    StepOk(y.cw, FlushEnd(t));
    FlushEndShape(y.cw, t);
    ReturnKept(y, Apply(y.cw, FlushEnd(t)), t, R.TimedOut(y.cw.threads[t].job));
  }

  lemma ResumeKept(cfg: Config, y: Net, t: nat, sent: bool)
    requires NetOk(y) && Possible(y, CallResumes(t, sent))
    ensures NetOk(Step(cfg, y, CallResumes(t, sent)))
  {
    var job := y.cw.threads[t].job;
    var slot := y.cw.c.slots[job.slot];
    var w := Apply(y.cw, Resume(t, sent));
    StepOk(y.cw, Resume(t, sent));
    ResumeShape(y.cw, t, sent);
    if slot.complete {
      SuccessKept(y, t);
      ReturnKept(y, w, t, Outcome(job, slot));
    } else if !sent {
      ReturnKept(y, w, t, SendFailed(job));
    } else {
      ResendKept(y, w, t);
    }
  }

  /** A request that is repeated goes out as it went out before. */
  lemma ResendKept(y: Net, w: World, t: nat)
    requires NetOk(y) && t < |y.cw.threads| && y.cw.threads[t].Sleeping? && WorldOk(w) && w.c.nextTag == y.cw.c.nextTag
    requires w.threads == y.cw.threads[t := Waiting(y.cw.threads[t].job)] && Quiet(y.cw.c.slots, w.c.slots)
    ensures NetOk(Sends(y.(cw := w), y.cw.threads[t].job.frame))
  {
    var job := y.cw.threads[t].job;
    var z := Sends(y.(cw := w), job.frame);
    assert CallOk(y, t);
    assert CallOk(z, t);
    assert z.up[|y.up|] == Packet(job.frame, y.started) && PacketOk(z, z.up[|y.up|]);
    ClientKept(y, z, t);
  }

  lemma TimeoutKept(cfg: Config, y: Net, t: nat, flushed: bool, frame: seq<byte>)
    requires NetOk(y) && Possible(y, CallTimesOut(t, flushed, frame))
    ensures NetOk(Step(cfg, y, CallTimesOut(t, flushed, frame)))
  {
    var job, w := y.cw.threads[t].job, Apply(y.cw, Timeout(t, flushed));
    StepOk(y.cw, Timeout(t, flushed));
    TimeoutShape(y.cw, t, flushed);
    assert CallOk(y, t);
    if Flushes(y.cw, t, flushed) {
      FlushSent(y, w, t, frame);
    } else {
      var z := y.(cw := w);
      assert CallOk(z, t);
      ClientKept(y, z, t);
    }
  }

  lemma FlushSent(y: Net, w: World, t: nat, frame: seq<byte>)
    requires NetOk(y) && t < |y.cw.threads| && y.cw.threads[t].Waiting? && WorldOk(w) && y.cw.c.nextTag < C.NOTAG
    requires |w.threads| == |y.cw.threads| && Quiet(y.cw.c.slots, w.c.slots) && w.c.nextTag == y.cw.c.nextTag + 1
    requires w.threads[t].Flushing? && w.threads[t].job == y.cw.threads[t].job && w.threads[t].ftag == y.cw.c.nextTag
    requires w.threads == y.cw.threads[t := w.threads[t]]
    requires D.WellFormed(frame) && frame[4] == TFLUSH && U16(frame, 5) == y.cw.c.nextTag
    ensures NetOk(Sends(y.(cw := w, asked := y.asked[y.cw.c.nextTag := Request(Other, 0)]), frame))
  {
    var z := Sends(y.(cw := w, asked := y.asked[y.cw.c.nextTag := Request(Other, 0)]), frame);
    assert Extends(y, z) && TagsUsed(z);
    assert CallOk(y, t);
    FrameOkGrows(y, z, y.cw.threads[t].job.frame);
    assert CallOk(z, t);
    assert z.up[|y.up|] == Packet(frame, y.started) && PacketOk(z, z.up[|y.up|]);
    ClientKept(y, z, t);
  }

  // ---------------------------------------------------------------- the connection

  /** A reply that grants what was asked, in whatever bytes it comes. */
  lemma GrantsMeans(kind: Kind, m: seq<byte>, r: D.Reply)
    requires Encodes(m, r) && Grants(kind, m) && (kind.Walk? ==> r.body.Rerror? || r.body.Rwalk?)
    ensures GrantsBody(kind, r.body)
  {
  }

  lemma ArriveKept(cfg: Config, y: Net, frame: seq<byte>)
    requires NetOk(y) && Possible(y, Arrives(frame))
    ensures NetOk(Step(cfg, y, Arrives(frame)))
  {
    var z, r := Step(cfg, y, Arrives(frame)), y.down[0];
    StepOk(y.cw, R.Receive(frame));
    forall t | 0 <= t < |z.cw.threads| ensures CallOk(z, t) {
      assert CallOk(y, t) && ThreadOk(y.cw, t) && ReplyOk(y, r);
      var p := z.cw.threads[t];
      if InFlight(p) && TakesFid(p.job.kind) && p.job.wire == r.tag && Grants(p.job.kind, frame) {
        GrantsMeans(p.job.kind, frame, r);
      }
      DeliveredSlot(y, t, frame);
    }
    assert forall i :: 0 <= i < |z.up| ==> PacketOk(y, y.up[i]);
    assert forall i :: 0 <= i < |z.down| ==> z.down[i] == y.down[i + 1];
  }

  lemma DeliveredSlot(y: Net, t: nat, frame: seq<byte>)
    requires NetOk(y) && t < |y.cw.threads|
    ensures var p, slots := y.cw.threads[t], C.Delivered(y.cw.c.slots, y.cw.c.bufSize, frame);
            InFlight(p) ==> p.job.slot < |y.cw.c.slots| && (SlotGrants(p.job.kind, slots[p.job.slot]) ==>
              || SlotGrants(p.job.kind, y.cw.c.slots[p.job.slot])
              || (HeaderOk(frame) && U16(frame, 5) == p.job.wire && Grants(p.job.kind, frame)))
  {
    assert ThreadOk(y.cw, t);
  }

  lemma LossUpKept(y: Net, i: nat)
    requires NetOk(y) && i < |y.up|
    ensures NetOk(y.(up := Without(y.up, i)))
  {
    var z := y.(up := Without(y.up, i));
    forall t | 0 <= t < |z.cw.threads| ensures CallOk(z, t) {
      assert CallOk(y, t);
    }
    forall k | 0 <= k < |z.up| ensures PacketOk(z, z.up[k]) {
      assert PacketOk(y, y.up[if k >= i then k + 1 else k]);
    }
  }

  lemma LossDownKept(y: Net, i: nat)
    requires NetOk(y) && i < |y.down|
    ensures NetOk(y.(down := Without(y.down, i)))
  {
    var z := y.(down := Without(y.down, i));
    forall t | 0 <= t < |z.cw.threads| ensures CallOk(z, t) {
      assert CallOk(y, t);
    }
    forall k | 0 <= k < |z.down| ensures ReplyOk(z, z.down[k]) {
      assert ReplyOk(y, y.down[if k >= i then k + 1 else k]);
    }
  }

  // ---------------------------------------------------------------- server steps

  /** The server went on, without forgetting a fid that anyone still relies on. */
  ghost predicate Serving(y: Net, z: Net) {
    && z == y.(s := z.s, up := z.up, down := z.down, reached := z.reached)
    && (y.reached ==> z.reached) && (z.reached ==> y.started)
    && (y.reached ==> forall f :: IsBound(y.s.x, f) && f !in y.gone ==> IsBound(z.s.x, f))
  }

  lemma ServingKept(y: Net, z: Net)
    requires NetOk(y) && Serving(y, z) && ParkedOk(z)
    requires forall i :: 0 <= i < |z.up| ==> PacketOk(z, z.up[i])
    requires Ordered(z.up)
    requires |y.down| <= |z.down| && y.down == z.down[..|y.down|]
    requires forall i :: |y.down| <= i < |z.down| ==> ReplyOk(z, z.down[i])
    ensures NetOk(z)
  {
    forall t | 0 <= t < |z.cw.threads| ensures CallOk(z, t) {
      assert CallOk(y, t);
    }
    forall i | 0 <= i < |z.down| ensures ReplyOk(z, z.down[i]) {
      if i < |y.down| {
        assert z.down[i] == y.down[i] && ReplyOk(y, y.down[i]);
      }
    }
  }

  /** Replies to requests that take no fid promise nothing. */
  lemma {:induction false} QuietReplies(y: Net, then_: Trace<D.Reply>, now: Trace<D.Reply>, tags: set<nat>)
    requires SentSince(then_, now, tags)
    requires forall g :: g in tags ==> (g in y.asked && !TakesFid(y.asked[g].kind)) || (g == C.NOTAG && g !in y.asked)
    ensures forall i :: 0 <= i < |Since(then_, now)| ==> ReplyOk(y, Since(then_, now)[i])
    decreases now
  {
    if now != then_ && now.Then? {
      QuietReplies(y, then_, now.before, tags);
    }
  }

  lemma OneReply(then_: Trace<D.Reply>, r: D.Reply)
    ensures Since(then_, Then(then_, r)) == [r] && Since(then_, then_) == []
  {
    assert Length(Then(then_, r)) != Length(then_);
  }

  /** A request that takes a fid gets at most one reply, and one that grants it only if it is bound. */
  lemma TakerAnswer(cfg: Config, s: D.State, m: seq<byte>, env: Env, kind: Kind, fid: nat)
    requires D.WellFormed(m) && TakesFid(kind) && FrameFor(kind, fid, U16(m, 5), m)
    ensures var s' := D.Process(cfg, s, m, env); var rs := Since(s.sent, s'.sent);
            && s'.pend == s.pend && |rs| <= 1
            && forall i :: 0 <= i < |rs| ==>
                 && rs[i].tag == U16(m, 5) && (kind.Walk? ==> rs[i].body.Rerror? || rs[i].body.Rwalk?)
                 && (GrantsBody(kind, rs[i].body) ==> IsBound(s'.x, fid))
  {
    var s1 := D.Receive(s, m);
    var d := if kind.Auth? then HandleTauth(cfg, s.x, m, env) else if kind.Attach? then HandleTattach(cfg, s.x, m, env)
             else HandleTwalk(cfg, s.x, m, env);
    if kind.Auth? {
      AuthBinds(cfg, s.x, m, env, fid);
    } else if kind.Attach? {
      AttachBinds(cfg, s.x, m, env, fid);
    } else {
      WalkBinds(cfg, s.x, m, env, fid);
    }
    assert D.Process(cfg, s, m, env) == D.Finish(cfg, s1, U16(m, 5), d);
    OneReply(s.sent, D.Reply(|s.reqs|, U16(m, 5), d.body));
  }

  lemma ServeSessions(cfg: Config, y: Net, env: Env)
    requires NetOk(y) && Possible(y, Serves(env))
    ensures Serving(y, Step(cfg, y, Serves(env)))
  {
    var p := y.up[0];
    assert PacketOk(y, p);
    if y.reached {
      forall f | IsBound(y.s.x, f) && f !in y.gone ensures IsBound(Step(cfg, y, Serves(env)).s.x, f) {
        ProcessKeepsFids(cfg, y.s, p.frame, env, f);
      }
    }
  }

  lemma ServePackets(cfg: Config, y: Net, env: Env)
    requires NetOk(y) && Possible(y, Serves(env))
    ensures var z := Step(cfg, y, Serves(env)); Ordered(z.up) && forall i :: 0 <= i < |z.up| ==> PacketOk(z, z.up[i])
  {
    var z := Step(cfg, y, Serves(env));
    forall i | 0 <= i < |z.up| ensures PacketOk(z, z.up[i]) {
      assert z.up[i] == y.up[i + 1] && PacketOk(y, y.up[i + 1]);
    }
  }

  ghost predicate RepliesOk(y: Net, rs: seq<D.Reply>) { forall i :: 0 <= i < |rs| ==> ReplyOk(y, rs[i]) }

  lemma ServeReplies(cfg: Config, y: Net, env: Env)
    requires NetOk(y) && Possible(y, Serves(env))
    ensures var z := Step(cfg, y, Serves(env)); ParkedOk(z) && RepliesOk(z, Since(y.s.sent, z.s.sent))
  {
    var z, m := Step(cfg, y, Serves(env)), y.up[0].frame;
    var g := U16(m, 5);
    assert PacketOk(y, y.up[0]);
    if m[4] != TVERSION && TakesFid(y.asked[g].kind) {
      TakerAnswer(cfg, y.s, m, env, y.asked[g].kind, y.asked[g].fid);
    } else {
      ProcessSends(cfg, y.s, m, env);
      QuietReplies(z, y.s.sent, z.s.sent, ParkedTags(y.s.pend) + {g});
    }
  }

  lemma TailOk(z: Net, front: seq<D.Reply>, rs: seq<D.Reply>)
    requires z.down == front + rs && RepliesOk(z, rs)
    ensures forall i :: |front| <= i < |z.down| ==> ReplyOk(z, z.down[i])
  {
    forall i | |front| <= i < |z.down| ensures ReplyOk(z, z.down[i]) {
      assert z.down[i] == rs[i - |front|];
    }
  }

  lemma ServeKept(cfg: Config, y: Net, env: Env)
    requires NetOk(y) && Possible(y, Serves(env))
    ensures NetOk(Step(cfg, y, Serves(env)))
  {
    ServeSessions(cfg, y, env);
    ServePackets(cfg, y, env);
    ServeReplies(cfg, y, env);
    var z := Step(cfg, y, Serves(env));
    TailOk(z, y.down, Since(y.s.sent, z.s.sent));
    ServingKept(y, z);
  }

  lemma CompleteKept(cfg: Config, y: Net, slot: nat, gen: nat, data: seq<byte>)
    requires NetOk(y)
    ensures NetOk(Step(cfg, y, Completes(slot, gen, data)))
  {
    var z := Step(cfg, y, Completes(slot, gen, data));
    if D.Answerable(y.s, slot, gen) {
      assert y.s.pend[slot].tag in ParkedTags(y.s.pend);
      assert ParkedTags(z.s.pend) <= ParkedTags(y.s.pend);
    }
    assert SentSince(y.s.sent, z.s.sent, ParkedTags(y.s.pend));
    QuietReplies(z, y.s.sent, z.s.sent, ParkedTags(y.s.pend));
    assert forall i :: 0 <= i < |z.up| ==> PacketOk(y, y.up[i]);
    ServingKept(y, z);
  }

  lemma TurnKept(cfg: Config, y: Net, e: Turn)
    requires NetOk(y) && Possible(y, e)
    ensures NetOk(Step(cfg, y, e))
  {
    match e
    case CallBegins(_, _, _, _, _, _, _) => BeginKept(cfg, y, e);
    case CallWakes(t) => WakeKept(cfg, y, t);
    case CallTimesOut(t, flushed, frame) => TimeoutKept(cfg, y, t, flushed, frame);
    case CallResumes(t, sent) => ResumeKept(cfg, y, t, sent);
    case FlushReturns(t) => FlushReturnKept(cfg, y, t);
    case Arrives(frame) => ArriveKept(cfg, y, frame);
    case Serves(env) => ServeKept(cfg, y, env);
    case Completes(slot, gen, data) => CompleteKept(cfg, y, slot, gen, data);
    case LosesUp(i) => LossUpKept(y, i);
    case LosesDown(i) => LossDownKept(y, i);
  }

  lemma {:induction false} NetRunOk(cfg: Config, y: Net, es: seq<Turn>)
    requires NetOk(y) && Connection.Feasible(cfg, y, es)
    ensures NetOk(RunOf(cfg, y, es))
    decreases |es|
  {
    if |es| > 0 {
      TurnKept(cfg, y, es[0]);
      NetRunOk(cfg, Step(cfg, y, es[0]), es[1..]);
    }
  }

  /** On every run, every fid that a successful auth, attach or walk established and that the client
      has not begun to clunk or remove is bound at the server. */
  lemma HeldFidsAreBound(cfg: Config, y: Net, es: seq<Turn>, fid: nat)
    requires Begins(cfg, y) && Connection.Feasible(cfg, y, es) && fid in RunOf(cfg, y, es).held
    ensures IsBound(RunOf(cfg, y, es).s.x, fid)
  {
    BeginsOk(cfg, y);
    NetRunOk(cfg, y, es);
  }
}
