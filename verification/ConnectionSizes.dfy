/** After negotiation every Rread and every Twrite fits what both sides hold. */
module ConnectionSizes {
  import opened Bytes
  import opened Traces
  import opened Session
  import D = Dispatch
  import opened ServerFids
  import C = Client
  import opened R = ClientRuns
  import opened ClientShapes
  import opened Connection
  import opened ConnectionKept
  import V = ServerInvariant

  /** What the server answers to the client's offer. */
  function Offered(cfg: Config, c: C.Client, mtu: int): nat { NegotiatedMsize(cfg, c.maxMessage, mtu) }

  /** Both sides end up with sizes that respect each other's limits and buffers. */
  lemma NegotiationRespectsBoth(cfg: Config, c: C.Client, mtu: int)
    ensures var m := Offered(cfg, c, mtu); var a := C.AgreedMsize(c, m);
            a <= m <= cfg.maxMessage && a <= c.bufSize && a <= c.maxMessage && (mtu > 0 ==> m <= mtu)
  {
  }

  /** The client's cap keeps a payload under a header of `head` bytes within the agreed size. If that
      size does not exceed the header, the cap is the buffer's and does so only if they coincide. */
  lemma CapFitsIff(c: C.Client, head: nat)
    requires c.msize <= c.bufSize && head > 0
    ensures head + C.PayloadCap(c, head) <= c.msize <==> c.msize > head || (c.msize == c.bufSize && c.msize >= head)
    ensures c.bufSize >= head ==> head + C.PayloadCap(c, head) <= c.bufSize
  {
  }

  // ---------------------------------------------------------------- sized runs

  /** Reads and writes as the client builds them. */
  predicate Within(c: C.Client, m: seq<byte>)
    requires |m| >= 7
  {
    && (m[4] == TREAD ==> |m| >= 23 && U32(m, 19) <= C.PayloadCap(c, 11))
    && (m[4] == TWRITE ==> |m| <= 23 + C.PayloadCap(c, 23))
  }

  predicate Offers(c: C.Client, m: seq<byte>) { |m| >= 11 && U32(m, 7) == c.maxMessage }

  /** A version call offers the configured size and has succeeded before other requests begin; the
      transport's MTU does not change; the filesystem returns no more than it was asked for; and the
      reply to a version call is encoded in full. */
  predicate Sized(cfg: Config, mtu: int, y: Net, e: Turn) {
    && Possible(y, e)
    && match e
       case CallBegins(_, kind, _, _, built, frame, _) =>
         && (!kind.Version? ==> y.agreed)
         && (Launches(y.cw, kind, built) ==> if kind.Version? then Offers(y.cw.c, frame) else Within(y.cw.c, frame))
       case Arrives(frame) =>
         y.down[0].body.Rversion? ==>
           (C.VersionOk(frame) ==> y.down[0].body.accepted && U32(frame, 7) == y.down[0].body.msize)
       case Serves(env) => env.mtu == mtu && V.FsHonest(cfg, y.s, y.up[0].frame, env)
       case _ => true
  }

  predicate AllSized(cfg: Config, mtu: int, y: Net, es: seq<Turn>)
    decreases |es|
  {
    |es| == 0 || (Sized(cfg, mtu, y, es[0]) && AllSized(cfg, mtu, Step(cfg, y, es[0]), es[1..]))
  }

  // ---------------------------------------------------------------- what sized runs keep

  predicate FrameSized(y: Net, m: seq<byte>) {
    && |m| >= 7 && (m[4] == TVERSION ==> Offers(y.cw.c, m))
    && (m[4] == TREAD || m[4] == TWRITE ==> y.started && Within(y.cw.c, m))
  }

  predicate ReplySized(cfg: Config, mtu: int, y: Net, r: D.Reply) {
    && (r.tag == C.NOTAG ==> r.body.Rversion? || r.body.Rerror?)
    && (r.body.Rversion? && r.body.accepted ==> r.body.msize == Offered(cfg, y.cw.c, mtu))
    && (r.body.Rread? ==> y.started && |r.body.data| <= C.PayloadCap(y.cw.c, 11))
  }

  predicate CallSized(cfg: Config, mtu: int, y: Net, t: nat)
    requires t < |y.cw.threads|
  {
    var p := y.cw.threads[t];
    InFlight(p) ==>
      && FrameSized(y, p.job.frame)
      && (p.job.kind.Version? && p.job.slot < |y.cw.c.slots| && VersionIn(y.cw.c.slots[p.job.slot])
          ==> U32(y.cw.c.slots[p.job.slot].rx, 7) == Offered(cfg, y.cw.c, mtu))
  }

  predicate VersionIn(s: C.Slot) { s.complete && s.fault.NoFault? && C.VersionOk(s.rx) }

  predicate SizesOk(cfg: Config, mtu: int, y: Net) {
    && (y.agreed ==> y.cw.c.msize == C.AgreedMsize(y.cw.c, Offered(cfg, y.cw.c, mtu))) && (y.started ==> y.agreed)
    && Offered(cfg, y.cw.c, mtu) <= y.s.x.msize <= cfg.maxMessage
    && (forall t :: 0 <= t < |y.cw.threads| ==> CallSized(cfg, mtu, y, t))
    && (forall i :: 0 <= i < |y.up| ==> FrameSized(y, y.up[i].frame))
    && (forall i :: 0 <= i < |y.down| ==> ReplySized(cfg, mtu, y, y.down[i]))
    && (forall i :: 0 <= i < |y.s.pend| && y.s.pend[i].inUse ==>
          y.started && y.s.pend[i].count <= C.PayloadCap(y.cw.c, 11))
  }

  lemma BeginsSized(cfg: Config, mtu: int, y: Net)
    requires Begins(cfg, y)
    ensures SizesOk(cfg, mtu, y)
  {
  }

  // ---------------------------------------------------------------- client steps

  /** The client's sizes are the same, or a version call changed the agreed one before anything else began. */
  predicate SameSizes(y: Net, z: Net) {
    && z.cw.c.maxMessage == y.cw.c.maxMessage && z.cw.c.bufSize == y.cw.c.bufSize
    && (z.cw.c.msize == y.cw.c.msize || !z.started)
  }

  lemma ClientSized(cfg: Config, mtu: int, y: Net, z: Net, t: nat)
    requires NetOk(y) && SizesOk(cfg, mtu, y) && SameSizes(y, z) && z.s == y.s && z.down == y.down
    requires (y.started ==> z.started) && (z.started ==> z.agreed)
    requires z.agreed ==> z.cw.c.msize == C.AgreedMsize(z.cw.c, Offered(cfg, z.cw.c, mtu))
    requires t < |y.cw.threads| == |z.cw.threads| && z.cw.threads == y.cw.threads[t := z.cw.threads[t]]
    requires Quiet(y.cw.c.slots, z.cw.c.slots) && CallSized(cfg, mtu, z, t)
    requires z.up == y.up || (|z.up| == |y.up| + 1 && z.up[..|y.up|] == y.up && FrameSized(z, z.up[|y.up|].frame))
    ensures SizesOk(cfg, mtu, z)
  {
    forall s | 0 <= s < |z.cw.threads| ensures CallSized(cfg, mtu, z, s) {
      if s != t {
        assert CallSized(cfg, mtu, y, s) && z.cw.threads[s] == y.cw.threads[s];
      }
    }
    forall i | 0 <= i < |z.up| ensures FrameSized(z, z.up[i].frame) {
      if i < |y.up| {
        assert z.up[i] == z.up[..|y.up|][i] && FrameSized(y, y.up[i].frame);
      }
    }
    forall i | 0 <= i < |z.down| ensures ReplySized(cfg, mtu, z, z.down[i]) {
      assert ReplySized(cfg, mtu, y, y.down[i]);
    }
  }

  lemma EndSizes(w: World, t: nat, job: Job, r: Result)
    requires t < |w.threads| && job.slot < |w.owner| == |w.c.slots|
    ensures var c := End(w, t, job, r).c;
            && c.maxMessage == w.c.maxMessage && c.bufSize == w.c.bufSize
            && c.msize == if Agrees(job, r) then C.AgreedMsize(w.c, U32(r.rx, 7)) else w.c.msize
  {
  }

  /** A request returns: only a version call's success touches the agreed size. */
  lemma ReturnSized(cfg: Config, mtu: int, y: Net, w: World, t: nat, job: Job, r: Result)
    requires NetOk(y) && SizesOk(cfg, mtu, y) && t < |y.cw.threads| && InFlight(y.cw.threads[t])
             && y.cw.threads[t].job == job
    requires w.threads == y.cw.threads[t := Idle(r)] && Quiet(y.cw.c.slots, w.c.slots) && (r.Answered? ==> r.job == job)
    requires w.c.maxMessage == y.cw.c.maxMessage && w.c.bufSize == y.cw.c.bufSize
    requires w.c.msize == if Agrees(job, r) then C.AgreedMsize(y.cw.c, U32(r.rx, 7)) else y.cw.c.msize
    requires Agrees(job, r) ==> U32(r.rx, 7) == Offered(cfg, y.cw.c, mtu)
    ensures SizesOk(cfg, mtu, Returns(y.(cw := w), t))
  {
    assert CallOk(y, t);
    ClientSized(cfg, mtu, y, Returns(y.(cw := w), t), t);
  }

  /** What a version call finds in its slot is what the server offered. */
  lemma OutcomeSized(cfg: Config, mtu: int, y: Net, t: nat)
    requires NetOk(y) && SizesOk(cfg, mtu, y) && t < |y.cw.threads| && InFlight(y.cw.threads[t])
    ensures var job := y.cw.threads[t].job;
            && job.slot < |y.cw.c.slots|
            && var s := y.cw.c.slots[job.slot]; var r := Outcome(job, s);
               s.complete && Agrees(job, r) ==> U32(r.rx, 7) == Offered(cfg, y.cw.c, mtu)
  {
    assert ThreadOk(y.cw, t) && CallSized(cfg, mtu, y, t);
  }

  lemma WakeSized(cfg: Config, mtu: int, y: Net, t: nat)
    requires NetOk(y) && SizesOk(cfg, mtu, y) && Possible(y, CallWakes(t))
    ensures SizesOk(cfg, mtu, Step(cfg, y, CallWakes(t)))
  {
    var job := y.cw.threads[t].job;
    var r := Outcome(job, y.cw.c.slots[job.slot]);
    EndShape(y.cw, t, job, r);
    EndSizes(y.cw, t, job, r);
    OutcomeSized(cfg, mtu, y, t);
    ReturnSized(cfg, mtu, y, Apply(y.cw, Wake(t)), t, job, r);
  }

  lemma FlushReturnSized(cfg: Config, mtu: int, y: Net, t: nat)
    requires NetOk(y) && SizesOk(cfg, mtu, y) && Possible(y, FlushReturns(t))
    ensures SizesOk(cfg, mtu, Step(cfg, y, FlushReturns(t)))
  {
    var p := y.cw.threads[t];
    FlushEndShape(y.cw, t);
    EndSizes(LetGo(y.cw, p.fslot, p.ftag), t, p.job, R.TimedOut(p.job));
    ReturnSized(cfg, mtu, y, Apply(y.cw, FlushEnd(t)), t, p.job, R.TimedOut(p.job));
  }

  lemma ResumeSized(cfg: Config, mtu: int, y: Net, t: nat, sent: bool)
    requires NetOk(y) && SizesOk(cfg, mtu, y) && Possible(y, CallResumes(t, sent))
    ensures SizesOk(cfg, mtu, Step(cfg, y, CallResumes(t, sent)))
  {
    var job, w := y.cw.threads[t].job, Apply(y.cw, Resume(t, sent));
    var slot := y.cw.c.slots[job.slot];
    ResumeShape(y.cw, t, sent);
    if slot.complete {
      EndSizes(y.cw, t, job, Outcome(job, slot));
      OutcomeSized(cfg, mtu, y, t);
      ReturnSized(cfg, mtu, y, w, t, job, Outcome(job, slot));
    } else if sent {
      var z := Step(cfg, y, CallResumes(t, sent));
      assert CallSized(cfg, mtu, y, t);
      assert z.up[..|y.up|] == y.up;
      ClientSized(cfg, mtu, y, z, t);
    } else {
      EndSizes(y.cw.(c := y.cw.c.(slots := y.cw.c.slots[job.slot := slot.(fault := C.NoFault)])), t, job,
               SendFailed(job));
      ReturnSized(cfg, mtu, y, w, t, job, SendFailed(job));
    }
  }

  lemma TimeoutSizes(w: World, t: nat, flushed: bool)
    requires Enabled(w, Timeout(t, flushed))
    ensures var c := DoTimeout(w, t, flushed).c;
            c.maxMessage == w.c.maxMessage && c.bufSize == w.c.bufSize && c.msize == w.c.msize
  {
  }

  lemma FlushSentSized(cfg: Config, mtu: int, y: Net, w: World, t: nat, asked: map<nat, Request>, frame: seq<byte>)
    requires NetOk(y) && SizesOk(cfg, mtu, y) && t < |y.cw.threads| == |w.threads| && Quiet(y.cw.c.slots, w.c.slots)
    requires w.c.maxMessage == y.cw.c.maxMessage && w.c.bufSize == y.cw.c.bufSize && w.c.msize == y.cw.c.msize
    requires w.threads == y.cw.threads[t := w.threads[t]] && w.threads[t].Flushing? && InFlight(y.cw.threads[t])
    requires w.threads[t].job == y.cw.threads[t].job && |frame| >= 7 && frame[4] == TFLUSH
    ensures SizesOk(cfg, mtu, Sends(y.(cw := w, asked := asked), frame))
  {
    var z := Sends(y.(cw := w, asked := asked), frame);
    assert CallSized(cfg, mtu, y, t);
    assert z.up[..|y.up|] == y.up;
    ClientSized(cfg, mtu, y, z, t);
  }

  lemma TimeoutSized(cfg: Config, mtu: int, y: Net, t: nat, flushed: bool, frame: seq<byte>)
    requires NetOk(y) && SizesOk(cfg, mtu, y) && Possible(y, CallTimesOut(t, flushed, frame))
    ensures SizesOk(cfg, mtu, Step(cfg, y, CallTimesOut(t, flushed, frame)))
  {
    var w := Apply(y.cw, Timeout(t, flushed));
    TimeoutShape(y.cw, t, flushed);
    TimeoutSizes(y.cw, t, flushed);
    if Flushes(y.cw, t, flushed) {
      FlushSentSized(cfg, mtu, y, w, t, y.asked[y.cw.c.nextTag := Request(Other, 0)], frame);
    } else {
      assert CallSized(cfg, mtu, y, t);
      ClientSized(cfg, mtu, y, y.(cw := w), t);
    }
  }

  lemma BeginSizes(w: World, t: nat, kind: Kind, fid: nat, retries: nat, built: bool, frame: seq<byte>, sent: bool)
    requires t < |w.threads| && |w.owner| == |w.c.slots|
    ensures var c := DoBegin(w, t, kind, fid, retries, built, frame, sent).c;
            c.maxMessage == w.c.maxMessage && c.bufSize == w.c.bufSize && c.msize == w.c.msize
  {
  }

  lemma BeginSized(cfg: Config, mtu: int, y: Net, e: Turn)
    requires NetOk(y) && SizesOk(cfg, mtu, y) && e.CallBegins? && Sized(cfg, mtu, y, e)
    ensures SizesOk(cfg, mtu, Step(cfg, y, e))
  {
    BeginShape(y.cw, e.t, e.kind, e.fid, e.retries, e.built, e.frame, e.sent);
    BeginSizes(y.cw, e.t, e.kind, e.fid, e.retries, e.built, e.frame, e.sent);
    BegunSized(cfg, mtu, y, DoBegin(y.cw, e.t, e.kind, e.fid, e.retries, e.built, e.frame, e.sent), e);
  }

  lemma BegunSized(cfg: Config, mtu: int, y: Net, w: World, e: Turn)
    requires NetOk(y) && SizesOk(cfg, mtu, y) && e.CallBegins? && e.t < |y.cw.threads| == |w.threads|
    requires !e.kind.Version? ==> y.agreed
    requires var c := y.cw.c;
             && w.c.maxMessage == c.maxMessage && w.c.bufSize == c.bufSize && w.c.msize == c.msize
             && Quiet(c.slots, w.c.slots) && w.threads == y.cw.threads[e.t := w.threads[e.t]]
    requires var p, launched := w.threads[e.t], Launches(y.cw, e.kind, e.built);
             && (launched ==> |e.frame| >= 7 && (e.frame[4] == TVERSION <==> e.kind.Version?)
                              && if e.kind.Version? then Offers(y.cw.c, e.frame) else Within(y.cw.c, e.frame))
             && (p.Idle? || (p.Waiting? && launched && p.job.frame == e.frame && p.job.slot < |w.c.slots|
                             && !w.c.slots[p.job.slot].complete))
    ensures SizesOk(cfg, mtu, Began(y, w, e.kind, FidOf(y.cw, e.kind, e.fid), Launches(y.cw, e.kind, e.built),
                                    e.frame, e.sent))
  {
    var z := Began(y, w, e.kind, FidOf(y.cw, e.kind, e.fid), Launches(y.cw, e.kind, e.built), e.frame, e.sent);
    assert z.up == y.up || z.up[..|y.up|] == y.up;
    if Launches(y.cw, e.kind, e.built) {
      assert FrameSized(z, e.frame);
    }
    ClientSized(cfg, mtu, y, z, e.t);
  }

  // ---------------------------------------------------------------- the connection and the server

  lemma ArrivedCallSized(cfg: Config, mtu: int, y: Net, w: World, frame: seq<byte>, t: nat)
    requires NetOk(y) && SizesOk(cfg, mtu, y) && Sized(cfg, mtu, y, Arrives(frame)) && t < |y.cw.threads|
    requires w.threads == y.cw.threads && w.c == y.cw.c.(slots := C.Delivered(y.cw.c.slots, y.cw.c.bufSize, frame))
    ensures CallSized(cfg, mtu, y.(cw := w), t)
  {
    assert ReplySized(cfg, mtu, y, y.down[0]) && ReplyOk(y, y.down[0]);
    assert CallSized(cfg, mtu, y, t) && ThreadOk(y.cw, t) && CallOk(y, t);
    DeliveredVersion(y, t, frame);
  }

  lemma ArriveSized(cfg: Config, mtu: int, y: Net, frame: seq<byte>)
    requires NetOk(y) && SizesOk(cfg, mtu, y) && Sized(cfg, mtu, y, Arrives(frame))
    ensures SizesOk(cfg, mtu, Step(cfg, y, Arrives(frame)))
  {
    ArrivedSized(cfg, mtu, y, Apply(y.cw, R.Receive(frame)), frame);
  }

  lemma ArrivedSized(cfg: Config, mtu: int, y: Net, w: World, frame: seq<byte>)
    requires NetOk(y) && SizesOk(cfg, mtu, y) && Sized(cfg, mtu, y, Arrives(frame)) && |y.down| > 0
    requires w.threads == y.cw.threads && w.c == y.cw.c.(slots := C.Delivered(y.cw.c.slots, y.cw.c.bufSize, frame))
    ensures SizesOk(cfg, mtu, y.(cw := w, down := y.down[1..]))
  {
    var z := y.(cw := w, down := y.down[1..]);
    forall t | 0 <= t < |z.cw.threads| ensures CallSized(cfg, mtu, z, t) {
      ArrivedCallSized(cfg, mtu, y, w, frame, t);
    }
    forall i | 0 <= i < |z.down| ensures ReplySized(cfg, mtu, z, z.down[i]) {
      assert z.down[i] == y.down[i + 1];
    }
    assert forall i :: 0 <= i < |z.up| ==> FrameSized(y, y.up[i].frame);
  }

  lemma DeliveredVersion(y: Net, t: nat, frame: seq<byte>)
    requires NetOk(y) && t < |y.cw.threads|
    ensures var p, slots := y.cw.threads[t], C.Delivered(y.cw.c.slots, y.cw.c.bufSize, frame);
            InFlight(p) && p.job.kind.Version? ==> p.job.slot < |y.cw.c.slots| && (VersionIn(slots[p.job.slot]) ==>
              || slots[p.job.slot] == y.cw.c.slots[p.job.slot]
              || (HeaderOk(frame) && U16(frame, 5) == C.NOTAG && frame[4] != C.RERROR && slots[p.job.slot].rx == frame))
  {
    assert ThreadOk(y.cw, t);
  }

  lemma LossSized(cfg: Config, mtu: int, y: Net, e: Turn)
    requires SizesOk(cfg, mtu, y) && Possible(y, e) && (e.LosesUp? || e.LosesDown?)
    ensures SizesOk(cfg, mtu, Step(cfg, y, e))
  {
    var z := Step(cfg, y, e);
    forall t | 0 <= t < |z.cw.threads| ensures CallSized(cfg, mtu, z, t) {
      assert CallSized(cfg, mtu, y, t);
    }
    forall i | 0 <= i < |z.up| ensures FrameSized(z, z.up[i].frame) {
      assert FrameSized(y, y.up[if e.LosesUp? && i >= e.i then i + 1 else i].frame);
    }
    forall i | 0 <= i < |z.down| ensures ReplySized(cfg, mtu, z, z.down[i]) {
      assert ReplySized(cfg, mtu, y, y.down[if e.LosesDown? && i >= e.i then i + 1 else i]);
    }
  }

  /** How much data a read may bring, once there are reads. */
  datatype Limit = Limit(on: bool, n: nat)

  predicate SmallBody(b: Body, l: Limit) { !b.Rversion? && (b.Rread? ==> l.on && |b.data| <= l.n) }

  /** No reply since then exceeds the limit, and none answers a version call. */
  predicate Small(then_: Trace<D.Reply>, now: Trace<D.Reply>, l: Limit) {
    now == then_ || (now.Then? && SmallBody(now.last.body, l) && Small(then_, now.before, l))
  }

  predicate CountsWithin(pend: seq<D.PendingRead>, l: Limit) {
    forall i :: 0 <= i < |pend| && pend[i].inUse ==> l.on && pend[i].count <= l.n
  }

  lemma {:induction false} CancelSmall(cfg: Config, s: D.State, sel: D.Selector, i: nat, then_: Trace<D.Reply>,
                                       l: Limit)
    requires i <= |s.pend| && Small(then_, s.sent, l) && CountsWithin(s.pend, l)
    ensures Small(then_, D.CancelFrom(cfg, s, sel, i).sent, l)
    decreases |s.pend| - i
  {
    if i < |s.pend| {
      CancelSmall(cfg, if D.Selects(sel, s.pend[i]) then D.CancelOne(cfg, s, i) else s, sel, i + 1, then_, l);
    }
  }

  lemma ReadFileSmall(cfg: Config, s: D.State, e: FidEntry, tag: nat, count: nat, env: Env, l: Limit)
    requires |s.reqs| > 0 && CountsWithin(s.pend, l) && l.on && count <= l.n && |env.data| <= l.n
    ensures var s' := D.ReadFile(cfg, s, e, tag, count, env);
            Small(s.sent, s'.sent, l) && CountsWithin(s'.pend, l) && s'.x.msize == s.x.msize
  {
    var sel := D.OfFidOrTag(e.fid, tag);
    CancelSmall(cfg, s, sel, 0, s.sent, l);
    D.CancelKeeps(cfg, s, sel, 0);
  }

  lemma ReadSmall(cfg: Config, s: D.State, msg: seq<byte>, env: Env, l: Limit)
    requires |msg| >= 23 && |s.reqs| > 0 && msg[4] == TREAD && V.FsHonest(cfg, s, msg, env)
    requires l.on && U32(msg, 19) <= l.n && CountsWithin(s.pend, l)
    ensures var s' := D.HandleTread(cfg, s, msg, env);
            Small(s.sent, s'.sent, l) && CountsWithin(s'.pend, l) && s'.x.msize == s.x.msize
  {
    var i := FindFid(s.x.fids, U32(msg, 7));
    if i < |s.x.fids| {
      var count, limit := U32(msg, 19), D.ReadLimit(cfg, s.x.msize);
      ReadFileSmall(cfg, s, s.x.fids[i], U16(msg, 5), if count > limit then limit else count, env, l);
    }
  }

  lemma FinishSmall(cfg: Config, s: D.State, tag: nat, d: Done, l: Limit)
    requires |s.reqs| > 0 && !d.body.Rversion? && !d.body.Rread?
    ensures var s' := D.Finish(cfg, s, tag, d); Small(s.sent, s'.sent, l) && s'.pend == s.pend && s'.x == d.x
  {
  }

  lemma FlushSmall(cfg: Config, s: D.State, msg: seq<byte>, l: Limit)
    requires |msg| >= 9 && |s.reqs| > 0 && CountsWithin(s.pend, l)
    ensures var s' := D.HandleTflush(cfg, s, msg); Small(s.sent, s'.sent, l) && CountsWithin(s'.pend, l) && s'.x == s.x
  {
    CancelSmall(cfg, s, D.OfTag(U16(msg, 7)), 0, s.sent, l);
    D.CancelKeeps(cfg, s, D.OfTag(U16(msg, 7)), 0);
  }

  lemma ClunkSmall(cfg: Config, s: D.State, msg: seq<byte>, l: Limit)
    requires |msg| >= 11 && |s.reqs| > 0 && CountsWithin(s.pend, l)
    ensures var s' := D.HandleTclunk(cfg, s, msg);
            Small(s.sent, s'.sent, l) && CountsWithin(s'.pend, l) && s'.x.msize == s.x.msize
  {
    CancelSmall(cfg, s, D.OfFid(U32(msg, 7)), 0, s.sent, l);
    D.CancelKeeps(cfg, s, D.OfFid(U32(msg, 7)), 0);
  }

  lemma ProcessSmall(cfg: Config, s: D.State, msg: seq<byte>, env: Env, l: Limit)
    requires D.WellFormed(msg) && msg[4] != TVERSION && CountsWithin(s.pend, l)
    requires msg[4] == TREAD ==> |msg| >= 23 && V.FsHonest(cfg, s, msg, env) && l.on && U32(msg, 19) <= l.n
    ensures var s' := D.Process(cfg, s, msg, env);
            Small(s.sent, s'.sent, l) && CountsWithin(s'.pend, l) && s'.x.msize == s.x.msize
  {
    var s1, t, tag := D.Receive(s, msg), msg[4], U16(msg, 5);
    if t == TAUTH { FinishSmall(cfg, s1, tag, HandleTauth(cfg, s1.x, msg, env), l); }
    else if t == TATTACH { FinishSmall(cfg, s1, tag, HandleTattach(cfg, s1.x, msg, env), l); }
    else if t == TFLUSH { FlushSmall(cfg, s1, msg, l); }
    else if t == TWALK { FinishSmall(cfg, s1, tag, HandleTwalk(cfg, s1.x, msg, env), l); }
    else if t == TREAD { ReadSmall(cfg, s1, msg, env, l); }
    else if t == TCLUNK { ClunkSmall(cfg, s1, msg, l); }
    else { RestSmall(cfg, s1, msg, env, l); }
  }

  lemma RestSmall(cfg: Config, s1: D.State, msg: seq<byte>, env: Env, l: Limit)
    requires D.WellFormed(msg) && |s1.reqs| > 0 && CountsWithin(s1.pend, l)
    requires msg[4] !in {TVERSION, TAUTH, TATTACH, TFLUSH, TWALK, TREAD, TCLUNK}
    ensures var s' := D.Handle1(cfg, s1, msg, env);
            Small(s1.sent, s'.sent, l) && CountsWithin(s'.pend, l) && s'.x.msize == s1.x.msize
  {
    var t, tag := msg[4], U16(msg, 5);
    if t == TOPEN { FinishSmall(cfg, s1, tag, HandleTopen(cfg, s1.x, msg, env), l); }
    else if t == TCREATE { FinishSmall(cfg, s1, tag, HandleTcreate(cfg, s1.x, msg, env), l); }
    else if t == TWRITE { FinishSmall(cfg, s1, tag, HandleTwrite(cfg, s1.x, msg, env), l); }
    else if t == TREMOVE { FinishSmall(cfg, s1, tag, HandleTremove(cfg, s1.x, msg, env), l); }
    else if t == TSTAT { FinishSmall(cfg, s1, tag, HandleTstat(cfg, s1.x, msg, env), l); }
    else if t == TWSTAT { FinishSmall(cfg, s1, tag, HandleTwstat(s1.x, msg), l); }
    else { FinishSmall(cfg, s1, tag, Done(s1.x, Rerror(NotSupported)), l); }
  }

  lemma {:induction false} SmallReplies(cfg: Config, mtu: int, y: Net, then_: Trace<D.Reply>, now: Trace<D.Reply>,
                                        l: Limit, tags: set<nat>)
    requires Small(then_, now, l) && SentSince(then_, now, tags) && C.NOTAG !in tags
    requires l.on ==> y.started && l.n <= C.PayloadCap(y.cw.c, 11)
    ensures forall i :: 0 <= i < |Since(then_, now)| ==> ReplySized(cfg, mtu, y, Since(then_, now)[i])
    decreases now
  {
    if now != then_ && now.Then? {
      SmallReplies(cfg, mtu, y, then_, now.before, l, tags);
    }
  }

  function LimitOf(y: Net): Limit { Limit(y.started, C.PayloadCap(y.cw.c, 11)) }

  lemma ServedSized(cfg: Config, mtu: int, y: Net, z: Net)
    requires SizesOk(cfg, mtu, y) && z == y.(s := z.s, up := z.up, down := z.down, reached := z.reached)
    requires Offered(cfg, y.cw.c, mtu) <= z.s.x.msize <= cfg.maxMessage && CountsWithin(z.s.pend, LimitOf(z))
    requires z.up == y.up || (|y.up| > 0 && z.up == y.up[1..])
    requires z.down == y.down + Since(y.s.sent, z.s.sent)
    requires forall i :: 0 <= i < |Since(y.s.sent, z.s.sent)| ==> ReplySized(cfg, mtu, z, Since(y.s.sent, z.s.sent)[i])
    ensures SizesOk(cfg, mtu, z)
  {
    forall t | 0 <= t < |z.cw.threads| ensures CallSized(cfg, mtu, z, t) {
      assert CallSized(cfg, mtu, y, t);
    }
    forall i | 0 <= i < |z.up| ensures FrameSized(z, z.up[i].frame) {
      assert FrameSized(y, y.up[if z.up == y.up then i else i + 1].frame);
    }
    forall i | 0 <= i < |z.down| ensures ReplySized(cfg, mtu, z, z.down[i]) {
      if i < |y.down| {
        assert ReplySized(cfg, mtu, y, y.down[i]);
      } else {
        assert z.down[i] == Since(y.s.sent, z.s.sent)[i - |y.down|];
      }
    }
  }

  lemma ParkedTagsAsked(y: Net)
    requires NetOk(y)
    ensures C.NOTAG !in ParkedTags(y.s.pend)
  {
  }

  lemma ServeVersionSized(cfg: Config, mtu: int, y: Net, env: Env)
    requires NetOk(y) && SizesOk(cfg, mtu, y) && Sized(cfg, mtu, y, Serves(env)) && y.up[0].frame[4] == TVERSION
    ensures SizesOk(cfg, mtu, Step(cfg, y, Serves(env)))
  {
    var z, m := Step(cfg, y, Serves(env)), y.up[0].frame;
    assert PacketOk(y, y.up[0]) && FrameSized(y, m);
    var s1 := D.Receive(y.s, m);
    var body := match Negotiate(cfg, m, env) case Refused(b) => b case Accepted(n) => Rversion(n, true);
    OneReply(y.s.sent, D.Reply(|y.s.reqs|, C.NOTAG, body));
    assert z.s == D.HandleTversion(cfg, s1, m, env);
    ServedSized(cfg, mtu, y, z);
  }

  lemma ServeOtherSized(cfg: Config, mtu: int, y: Net, env: Env)
    requires NetOk(y) && SizesOk(cfg, mtu, y) && Sized(cfg, mtu, y, Serves(env)) && y.up[0].frame[4] != TVERSION
    ensures SizesOk(cfg, mtu, Step(cfg, y, Serves(env)))
  {
    var z, m := Step(cfg, y, Serves(env)), y.up[0].frame;
    assert PacketOk(y, y.up[0]) && FrameSized(y, m);
    ProcessSmall(cfg, y.s, m, env, LimitOf(y));
    ProcessSends(cfg, y.s, m, env);
    ParkedTagsAsked(y);
    SmallReplies(cfg, mtu, z, y.s.sent, z.s.sent, LimitOf(y), ParkedTags(y.s.pend) + {U16(m, 5)});
    ServedSized(cfg, mtu, y, z);
  }

  lemma CompleteSized(cfg: Config, mtu: int, y: Net, slot: nat, gen: nat, data: seq<byte>)
    requires NetOk(y) && SizesOk(cfg, mtu, y)
    ensures SizesOk(cfg, mtu, Step(cfg, y, Completes(slot, gen, data)))
  {
    var z := Step(cfg, y, Completes(slot, gen, data));
    if D.Answerable(y.s, slot, gen) {
      assert y.s.pend[slot].tag in ParkedTags(y.s.pend);
    }
    ParkedTagsAsked(y);
    assert Small(y.s.sent, z.s.sent, LimitOf(y)) && SentSince(y.s.sent, z.s.sent, ParkedTags(y.s.pend));
    SmallReplies(cfg, mtu, z, y.s.sent, z.s.sent, LimitOf(y), ParkedTags(y.s.pend));
    ServedSized(cfg, mtu, y, z);
  }

  lemma TurnSized(cfg: Config, mtu: int, y: Net, e: Turn)
    requires NetOk(y) && SizesOk(cfg, mtu, y) && Sized(cfg, mtu, y, e)
    ensures SizesOk(cfg, mtu, Step(cfg, y, e))
  {
    match e
    case CallBegins(_, _, _, _, _, _, _) => BeginSized(cfg, mtu, y, e);
    case CallWakes(t) => WakeSized(cfg, mtu, y, t);
    case CallTimesOut(t, flushed, frame) => TimeoutSized(cfg, mtu, y, t, flushed, frame);
    case CallResumes(t, sent) => ResumeSized(cfg, mtu, y, t, sent);
    case FlushReturns(t) => FlushReturnSized(cfg, mtu, y, t);
    case Arrives(frame) => ArriveSized(cfg, mtu, y, frame);
    case Serves(env) =>
      if y.up[0].frame[4] == TVERSION {
        ServeVersionSized(cfg, mtu, y, env);
      } else {
        ServeOtherSized(cfg, mtu, y, env);
      }
    case Completes(slot, gen, data) => CompleteSized(cfg, mtu, y, slot, gen, data);
    case LosesUp(_) => LossSized(cfg, mtu, y, e);
    case LosesDown(_) => LossSized(cfg, mtu, y, e);
  }

  lemma {:induction false} SizedRun(cfg: Config, mtu: int, y: Net, es: seq<Turn>)
    requires NetOk(y) && SizesOk(cfg, mtu, y) && AllSized(cfg, mtu, y, es)
    ensures Connection.Feasible(cfg, y, es) && NetOk(RunOf(cfg, y, es)) && SizesOk(cfg, mtu, RunOf(cfg, y, es))
    decreases |es|
  {
    if |es| > 0 {
      TurnKept(cfg, y, es[0]);
      TurnSized(cfg, mtu, y, es[0]);
      SizedRun(cfg, mtu, Step(cfg, y, es[0]), es[1..]);
    }
  }

  /** n bytes fit the sizes both sides agreed on and both sides' buffers. */
  predicate FitsBoth(cfg: Config, y: Net, n: nat) {
    n <= y.cw.c.msize && n <= y.cw.c.bufSize && n <= y.s.x.msize && n <= cfg.maxMessage
  }

  predicate AllFit(cfg: Config, z: Net, i: nat) {
    && (i < |z.up| && |z.up[i].frame| >= 7 && z.up[i].frame[4] == TWRITE ==> FitsBoth(cfg, z, |z.up[i].frame|))
    && (i < |z.down| && z.down[i].body.Rread? ==> FitsBoth(cfg, z, Size(z.down[i].body)))
    && (i < |z.s.pend| && z.s.pend[i].inUse ==> FitsBoth(cfg, z, 11 + z.s.pend[i].count))
  }

  lemma SizesFit(cfg: Config, mtu: int, z: Net, i: nat)
    requires SizesOk(cfg, mtu, z) && z.agreed && z.cw.c.msize > 23
    ensures AllFit(cfg, z, i)
  {
    NegotiationRespectsBoth(cfg, z.cw.c, mtu);
    CapFitsIff(z.cw.c, 11);
    CapFitsIff(z.cw.c, 23);
    assert i < |z.up| ==> FrameSized(z, z.up[i].frame);
    assert i < |z.down| ==> ReplySized(cfg, mtu, z, z.down[i]);
  }

  /** Once a size above 23 is agreed, every Twrite under way and every Rread under way fits the sizes
      both sides hold and both sides' buffers, and so does the reply to every parked read. */
  lemma MessagesFitBoth(cfg: Config, mtu: int, y: Net, es: seq<Turn>, i: nat)
    requires Begins(cfg, y) && AllSized(cfg, mtu, y, es)
    ensures Connection.Feasible(cfg, y, es)
    ensures var z := RunOf(cfg, y, es); z.agreed && z.cw.c.msize > 23 ==> AllFit(cfg, z, i)
  {
    BeginsOk(cfg, y);
    BeginsSized(cfg, mtu, y);
    SizedRun(cfg, mtu, y, es);
    var z := RunOf(cfg, y, es);
    if z.agreed && z.cw.c.msize > 23 {
      SizesFit(cfg, mtu, z, i);
    }
  }
}
