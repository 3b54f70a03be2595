/**
 * The client's fid table against what its calls did: an entry for every fid that an auth, attach or walk call
 * took and that has not been given back, and none besides.
 */
module ClientFids {
  import opened Bytes
  import opened Client
  import opened ClientRuns
  import opened ClientShapes

  // ---------------------------------------------------------------- the table

  function Table(fids: seq<ClientFid>): set<nat> { set i | 0 <= i < |fids| && fids[i].inUse :: fids[i].fid }

  /** No fid has two entries. */
  predicate Single(fids: seq<ClientFid>) {
    forall i, k :: 0 <= i < k < |fids| && fids[i].inUse && fids[k].inUse ==> fids[i].fid != fids[k].fid
  }

  lemma AllocTable(c: Client)
    requires Single(c.fids) && c.nextFid !in Table(c.fids) && FreeFidAt(c.fids) < |c.fids|
    ensures Single(AllocFid(c).fids) && Table(AllocFid(c).fids) == Table(c.fids) + {c.nextFid}
  {
    var fids, i := AllocFid(c).fids, FreeFidAt(c.fids);
    assert forall k :: 0 <= k < |fids| && k != i ==> fids[k] == c.fids[k];
    forall f | f in Table(c.fids) + {c.nextFid} ensures f in Table(fids) {
      if f == c.nextFid {
        assert fids[i].inUse && fids[i].fid == f;
      } else {
        var k :| 0 <= k < |c.fids| && c.fids[k].inUse && c.fids[k].fid == f;
        assert fids[k].inUse && fids[k].fid == f;
      }
    }
  }

  lemma FreeTable(c: Client, f: nat)
    requires Single(c.fids)
    ensures Single(FreeFid(c, f).fids) && Table(FreeFid(c, f).fids) == Table(c.fids) - {f}
  {
    var fids, i := FreeFid(c, f).fids, FindFidAt(c.fids, f);
    assert forall k :: 0 <= k < |fids| && k != i ==> fids[k] == c.fids[k];
    forall g | g in Table(c.fids) - {f} ensures g in Table(fids) {
      var k :| 0 <= k < |c.fids| && c.fids[k].inUse && c.fids[k].fid == g;
      assert fids[k].inUse && fids[k].fid == g;
    }
  }

  // ---------------------------------------------------------------- what the calls did

  /** Fids taken by calls still in flight, and fids such calls established, none of them given back since. */
  datatype Books = Books(flying: set<nat>, held: set<nat>)

  function Sum(b: Books): set<nat> { b.flying + b.held }

  /** The call was sent, or at least built, and has now returned. */
  predicate Returned(r: Result) { r.SendFailed? || r.TimedOut? || r.Refused? || r.Answered? }

  /** A call returns. A clunk or remove gives its fid back whatever it brought; so does an auth, attach or
      walk that failed. One that succeeded establishes its fid. */
  function Return(b: Books, r: Result): Books
    requires Returned(r)
  {
    var f := r.job.fid;
    if DropsFid(r.job.kind) || (TakesFid(r.job.kind) && !Success(r)) then Books(b.flying - {f}, b.held - {f})
    else if TakesFid(r.job.kind) && f in b.flying then Books(b.flying - {f}, b.held + {f})
    else b
  }

  /** One step of a thread, from p to q. */
  function Note(b: Books, p: Pc, q: Pc): Books {
    if p.Idle? && q.Waiting? then if TakesFid(q.job.kind) then b.(flying := b.flying + {q.job.fid}) else b
    else if q.Idle? && Returned(q.result) then Return(b, q.result)
    else b
  }

  function Step(b: Books, w: World, a: Action): Books
    requires Enabled(w, a)
  {
    if a.Receive? then b else Note(b, w.threads[a.t], Apply(w, a).threads[a.t])
  }

  function Kept(b: Books, w: World, acts: seq<Action>): Books
    requires Feasible(w, acts)
    decreases |acts|
  {
    if |acts| == 0 then b else Kept(Step(b, w, acts[0]), Apply(w, acts[0]), acts[1..])
  }

  // ---------------------------------------------------------------- fids in flight

  /** p is an auth, attach or walk call in flight that took fid f. */
  predicate Takes(p: Pc, f: nat) { !p.Idle? && TakesFid(p.job.kind) && p.job.fid == f }

  predicate InFlightTo(ps: seq<Pc>, f: nat) { exists t :: 0 <= t < |ps| && Takes(ps[t], f) }

  /** No two calls in flight took the same fid. */
  ghost predicate OneEach(ps: seq<Pc>) {
    forall s, t, f: nat :: 0 <= s < |ps| && 0 <= t < |ps| && Takes(ps[s], f) && Takes(ps[t], f) ==> s == t
  }

  /** The counter has not come round to a fid that is in the table or that a call in flight took. */
  predicate FreshFid(w: World) { w.c.nextFid !in Table(w.c.fids) && !InFlightTo(w.threads, w.c.nextFid) }

  ghost predicate FidsOk(w: World, b: Books) {
    && Single(w.c.fids) && Table(w.c.fids) == Sum(b) && b.flying !! b.held && OneEach(w.threads)
    && (forall f :: f in b.flying ==> InFlightTo(w.threads, f))
    && (forall f: nat :: InFlightTo(w.threads, f) ==> f !in b.held)
  }

  lemma StartOk(w: World)
    requires Boot(w)
    ensures FidsOk(w, Books({}, {}))
  {
  }

  // ---------------------------------------------------------------- every step keeps the books

  /** The fids once a call has returned. */
  function FidsAfter(c: Client, r: Result): seq<ClientFid>
    requires Returned(r)
  {
    if DropsFid(r.job.kind) || (TakesFid(r.job.kind) && !Success(r)) then FreeFid(c, r.job.fid).fids else c.fids
  }

  lemma SettleFids(c: Client, r: Result)
    requires Returned(r)
    ensures Settle(c, r.job, r).fids == FidsAfter(c, r) && Settle(c, r.job, r).nextFid == c.nextFid
  {
  }

  /** Thread t goes from a call in flight to its result. */
  predicate Ends(w: World, w': World, t: nat, r: Result) {
    && t < |w.threads| && !w.threads[t].Idle? && Returned(r)
    && w.threads[t].job.kind == r.job.kind && w.threads[t].job.fid == r.job.fid
    && w'.threads == w.threads[t := Idle(r)] && w'.c.fids == FidsAfter(w.c, r) && w'.c.nextFid == w.c.nextFid
  }

  lemma TakersAfter(ps: seq<Pc>, t: nat, r: Result, f: nat)
    requires t < |ps| && OneEach(ps)
    ensures OneEach(ps[t := Idle(r)])
    ensures InFlightTo(ps[t := Idle(r)], f) <==> InFlightTo(ps, f) && !Takes(ps[t], f)
  {
    var qs := ps[t := Idle(r)];
    if InFlightTo(ps, f) && !Takes(ps[t], f) {
      var s :| 0 <= s < |ps| && Takes(ps[s], f);
      assert Takes(qs[s], f);
    }
    if InFlightTo(qs, f) {
      var s :| 0 <= s < |qs| && Takes(qs[s], f);
      assert Takes(ps[s], f) && s != t;
    }
  }

  lemma EndsOk(w: World, b: Books, w': World, t: nat, r: Result)
    requires FidsOk(w, b) && Ends(w, w', t, r)
    ensures FidsOk(w', Return(b, r))
  {
    var f, b' := r.job.fid, Return(b, r);
    FreeTable(w.c, f);
    assert TakesFid(r.job.kind) ==> Takes(w.threads[t], f) && InFlightTo(w.threads, f);
    assert Table(w'.c.fids) == Sum(b');
    TakersAfter(w.threads, t, r, f);
    forall g | g in b'.flying ensures InFlightTo(w'.threads, g) {
      TakersAfter(w.threads, t, r, g);
    }
    forall g: nat | InFlightTo(w'.threads, g) ensures g !in b'.held {
      TakersAfter(w.threads, t, r, g);
    }
  }

  /** Thread t launches a call. */
  predicate Starts(w: World, w': World, t: nat, job: Job) {
    && t < |w.threads| && w.threads[t].Idle? && w'.threads == w.threads[t := Waiting(job)]
    && if TakesFid(job.kind) then
         && FreshFid(w) && job.fid == w.c.nextFid && FreeFidAt(w.c.fids) < |w.c.fids|
         && w'.c.fids == AllocFid(w.c).fids && w'.c.nextFid == AllocFid(w.c).nextFid
       else w'.c.fids == w.c.fids && w'.c.nextFid == w.c.nextFid
  }

  lemma TakersBefore(ps: seq<Pc>, t: nat, q: Pc, f: nat)
    requires t < |ps| && ps[t].Idle? && OneEach(ps)
    requires forall g: nat :: Takes(q, g) ==> !InFlightTo(ps, g)
    ensures OneEach(ps[t := q])
    ensures InFlightTo(ps[t := q], f) <==> InFlightTo(ps, f) || Takes(q, f)
  {
    var qs := ps[t := q];
    forall s, u, g: nat | 0 <= s < |qs| && 0 <= u < |qs| && Takes(qs[s], g) && Takes(qs[u], g) ensures s == u {
      assert (s != t ==> Takes(ps[s], g)) && (u != t ==> Takes(ps[u], g));
    }
    if InFlightTo(ps, f) {
      var s :| 0 <= s < |ps| && Takes(ps[s], f);
      assert Takes(qs[s], f);
    }
    if Takes(q, f) {
      assert Takes(qs[t], f);
    }
  }

  lemma StartsOk(w: World, b: Books, w': World, t: nat, job: Job)
    requires FidsOk(w, b) && Starts(w, w', t, job)
    ensures FidsOk(w', Note(b, w.threads[t], Waiting(job)))
  {
    var b', q := Note(b, w.threads[t], Waiting(job)), Waiting(job);
    if TakesFid(job.kind) {
      AllocTable(w.c);
      assert Sum(b') == Sum(b) + {w.c.nextFid};
    }
    TakersBefore(w.threads, t, q, job.fid);
    forall g | g in b'.flying ensures InFlightTo(w'.threads, g) {
      TakersBefore(w.threads, t, q, g);
    }
    forall g: nat | InFlightTo(w'.threads, g) ensures g !in b'.held {
      TakersBefore(w.threads, t, q, g);
    }
  }

  /** Thread t goes on with the call it is in. */
  predicate GoesOn(w: World, w': World, t: nat, q: Pc) {
    && t < |w.threads| && !w.threads[t].Idle? && !q.Idle?
    && q.job.kind == w.threads[t].job.kind && q.job.fid == w.threads[t].job.fid
    && w'.threads == w.threads[t := q] && w'.c.fids == w.c.fids && w'.c.nextFid == w.c.nextFid
  }

  lemma SameTakers(ps: seq<Pc>, t: nat, q: Pc, f: nat)
    requires t < |ps| && forall g: nat :: Takes(q, g) <==> Takes(ps[t], g)
    ensures InFlightTo(ps[t := q], f) <==> InFlightTo(ps, f)
    ensures OneEach(ps) ==> OneEach(ps[t := q])
  {
    var qs := ps[t := q];
    assert forall s, g: nat :: 0 <= s < |ps| ==> (Takes(qs[s], g) <==> Takes(ps[s], g));
  }

  lemma GoesOnOk(w: World, b: Books, w': World, t: nat, q: Pc)
    requires FidsOk(w, b) && GoesOn(w, w', t, q)
    ensures FidsOk(w', b)
  {
    SameTakers(w.threads, t, q, 0);
    forall g | g in b.flying ensures InFlightTo(w'.threads, g) {
      SameTakers(w.threads, t, q, g);
    }
    forall g: nat | InFlightTo(w'.threads, g) ensures g !in b.held {
      SameTakers(w.threads, t, q, g);
    }
  }

  /** Thread t stays idle; a fid that was taken in between is back. */
  lemma StaysIdleOk(w: World, b: Books, w': World, t: nat, r: Result)
    requires FidsOk(w, b) && t < |w.threads| && w.threads[t].Idle? && w'.threads == w.threads[t := Idle(r)]
    requires Single(w'.c.fids) && Table(w'.c.fids) == Table(w.c.fids)
    ensures FidsOk(w', b)
  {
    SameTakers(w.threads, t, Idle(r), 0);
    forall g | g in b.flying ensures InFlightTo(w'.threads, g) {
      SameTakers(w.threads, t, Idle(r), g);
    }
    forall g: nat | InFlightTo(w'.threads, g) ensures g !in b.held {
      SameTakers(w.threads, t, Idle(r), g);
    }
  }

  // ---------------------------------------------------------------- steps

  lemma EndEnds(w: World, w0: World, t: nat, r: Result)
    requires t < |w.threads| && !w.threads[t].Idle? && Returned(r) && w.threads[t].job == r.job
    requires w0.threads == w.threads && w0.c.fids == w.c.fids && w0.c.nextFid == w.c.nextFid
    requires r.job.slot < |w0.owner| == |w0.c.slots|
    ensures Ends(w, End(w0, t, r.job, r), t, r)
  {
    SettleFids(w0.c, r);
  }

  lemma BuildFailedOk(w: World, b: Books, t: nat, kind: Kind, fid: nat, retries: nat, frame: seq<byte>, sent: bool)
    requires FidsOk(w, b) && FreshFid(w) && Enabled(w, Begin(t, kind, fid, retries, false, frame, sent))
    ensures FidsOk(DoBegin(w, t, kind, fid, retries, false, frame, sent), b)
  {
    var w' := DoBegin(w, t, kind, fid, retries, false, frame, sent);
    if TakesFid(kind) && FreeAt(w.c.slots) < |w.c.slots| && FreeFidAt(w.c.fids) < |w.c.fids| {
      AllocTable(w.c);
      FreeTable(AllocFid(w.c), w.c.nextFid);
      assert w'.c.fids == FreeFid(AllocFid(w.c), w.c.nextFid).fids;
    }
    StaysIdleOk(w, b, w', t, w'.threads[t].result);
  }

  /** The world of a call that is sent, and the job it is in. */
  lemma SentStarts(w: World, t: nat, kind: Kind, fid: nat, retries: nat, frame: seq<byte>)
    requires FreshFid(w) && Enabled(w, Begin(t, kind, fid, retries, true, frame, true)) && Launches(w, kind, true)
    ensures var up := DoBegin(w, t, kind, fid, retries, true, frame, true);
            up.threads[t].Waiting? && Starts(w, up, t, up.threads[t].job)
  {
  }

  /** A call that could not be sent is one that was, and ended at once. */
  lemma UnsentEnds(w: World, t: nat, kind: Kind, fid: nat, retries: nat, frame: seq<byte>)
    requires Enabled(w, Begin(t, kind, fid, retries, true, frame, true)) && Launches(w, kind, true)
    ensures var up, down := DoBegin(w, t, kind, fid, retries, true, frame, true),
                            DoBegin(w, t, kind, fid, retries, true, frame, false);
            && up.threads[t].Waiting?
            && Ends(up, down, t, SendFailed(up.threads[t].job))
            && down.threads[t] == Idle(SendFailed(up.threads[t].job))
  {
    var up := DoBegin(w, t, kind, fid, retries, true, frame, true);
    var job := up.threads[t].job;
    var w1 := up.(threads := w.threads);
    SettleFids(w1.c, SendFailed(job));
    assert w1.threads[t := Idle(SendFailed(job))] == up.threads[t := Idle(SendFailed(job))];
  }

  lemma UnsentBooks(b: Books, p: Pc, job: Job)
    requires p.Idle? && (TakesFid(job.kind) ==> job.fid !in Sum(b))
    ensures Return(Note(b, p, Waiting(job)), SendFailed(job)) == Note(b, p, Idle(SendFailed(job)))
  {
  }

  lemma BeginFids(w: World, b: Books, t: nat, kind: Kind, fid: nat, retries: nat, built: bool, frame: seq<byte>,
                  sent: bool)
    requires FidsOk(w, b) && FreshFid(w) && Enabled(w, Begin(t, kind, fid, retries, built, frame, sent))
    ensures var w' := DoBegin(w, t, kind, fid, retries, built, frame, sent);
            FidsOk(w', Note(b, w.threads[t], w'.threads[t]))
  {
    var w' := DoBegin(w, t, kind, fid, retries, built, frame, sent);
    if Launches(w, kind, built) {
      var up := DoBegin(w, t, kind, fid, retries, true, frame, true);
      SentStarts(w, t, kind, fid, retries, frame);
      var job := up.threads[t].job;
      StartsOk(w, b, up, t, job);
      if !sent {
        UnsentEnds(w, t, kind, fid, retries, frame);
        EndsOk(up, Note(b, w.threads[t], Waiting(job)), w', t, SendFailed(job));
        UnsentBooks(b, w.threads[t], job);
      }
    } else if built {
      StaysIdleOk(w, b, w', t, w'.threads[t].result);
    } else {
      BuildFailedOk(w, b, t, kind, fid, retries, frame, sent);
    }
  }

  lemma TimeoutFids(w: World, b: Books, t: nat, flushed: bool)
    requires FidsOk(w, b) && Enabled(w, Timeout(t, flushed))
    ensures var w' := DoTimeout(w, t, flushed); FidsOk(w', Note(b, w.threads[t], w'.threads[t]))
  {
    var w', job, i := DoTimeout(w, t, flushed), w.threads[t].job, FreeAt(w.c.slots);
    if job.left > 0 || (i < |w.c.slots| && flushed) {
      GoesOnOk(w, b, w', t, w'.threads[t]);
    } else {
      var w0 := if i == |w.c.slots| then w
                else LetGo(w.(c := AllocTag(w.c), owner := w.owner[i := Flush(t)]), i, w.c.nextTag);
      EndEnds(w, w0, t, TimedOut(job));
      EndsOk(w, b, w', t, TimedOut(job));
    }
  }

  lemma ResumeFids(w: World, b: Books, t: nat, sent: bool)
    requires FidsOk(w, b) && Enabled(w, Resume(t, sent))
    ensures var w' := Apply(w, Resume(t, sent)); FidsOk(w', Note(b, w.threads[t], w'.threads[t]))
  {
    var w', job := Apply(w, Resume(t, sent)), w.threads[t].job;
    var s := w.c.slots[job.slot];
    if s.complete {
      EndEnds(w, w, t, Outcome(job, s));
      EndsOk(w, b, w', t, Outcome(job, s));
    } else if sent {
      GoesOnOk(w, b, w', t, Waiting(job));
    } else {
      EndEnds(w, w.(c := w.c.(slots := w.c.slots[job.slot := s.(fault := NoFault)])), t, SendFailed(job));
      EndsOk(w, b, w', t, SendFailed(job));
    }
  }

  lemma WakeFids(w: World, b: Books, t: nat)
    requires FidsOk(w, b) && Enabled(w, Wake(t))
    ensures var w' := Apply(w, Wake(t)); FidsOk(w', Note(b, w.threads[t], w'.threads[t]))
  {
    var job := w.threads[t].job;
    var r := Outcome(job, w.c.slots[job.slot]);
    EndEnds(w, w, t, r);
    EndsOk(w, b, Apply(w, Wake(t)), t, r);
  }

  lemma FlushEndFids(w: World, b: Books, t: nat)
    requires FidsOk(w, b) && Enabled(w, FlushEnd(t))
    ensures var w' := Apply(w, FlushEnd(t)); FidsOk(w', Note(b, w.threads[t], w'.threads[t]))
  {
    var p := w.threads[t];
    EndEnds(w, LetGo(w, p.fslot, p.ftag), t, TimedOut(p.job));
    EndsOk(w, b, Apply(w, FlushEnd(t)), t, TimedOut(p.job));
  }

  lemma StepFids(w: World, b: Books, a: Action)
    requires FidsOk(w, b) && Enabled(w, a) && (a.Begin? ==> FreshFid(w))
    ensures FidsOk(Apply(w, a), Step(b, w, a))
  {
    match a
    case Begin(t, kind, fid, retries, built, frame, sent) =>
      BeginFids(w, b, t, kind, fid, retries, built, frame, sent);
    case Receive(frame) =>
    case Wake(t) => WakeFids(w, b, t);
    case Timeout(t, flushed) => TimeoutFids(w, b, t, flushed);
    case Resume(t, sent) => ResumeFids(w, b, t, sent);
    case FlushEnd(t) => FlushEndFids(w, b, t);
  }

  // ---------------------------------------------------------------- the counter

  /** Every fid in the table or in flight was handed out before. */
  ghost predicate Below(w: World) {
    && (forall f :: f in Table(w.c.fids) ==> f < w.c.nextFid)
    && (forall t, f: nat :: 0 <= t < |w.threads| && Takes(w.threads[t], f) ==> f < w.c.nextFid)
  }

  /** One step puts at most the counter's fid into the table or into flight, and then moves the counter on. */
  ghost predicate Grown(w: World, w': World) {
    var new_ := if w'.c.nextFid == w.c.nextFid then {} else {w.c.nextFid};
    && (w'.c.nextFid == w.c.nextFid || w'.c.nextFid == (w.c.nextFid + 1) % MOD32)
    && Table(w'.c.fids) <= Table(w.c.fids) + new_ && |w'.threads| == |w.threads|
    && (forall t, f: nat :: 0 <= t < |w.threads| && Takes(w'.threads[t], f) ==> Takes(w.threads[t], f) || f in new_)
  }

  lemma FewerFids(c: Client, f: nat)
    ensures Table(FreeFid(c, f).fids) <= Table(c.fids)
  {
    var fids := FreeFid(c, f).fids;
    forall g | g in Table(fids) ensures g in Table(c.fids) {
      var k :| 0 <= k < |fids| && fids[k].inUse && fids[k].fid == g;
      assert c.fids[k] == fids[k];
    }
  }

  lemma OneMoreFid(c: Client)
    ensures Table(AllocFid(c).fids) <= Table(c.fids) + {c.nextFid}
  {
    var fids := AllocFid(c).fids;
    forall g | g in Table(fids) && g != c.nextFid ensures g in Table(c.fids) {
      var k :| 0 <= k < |fids| && fids[k].inUse && fids[k].fid == g;
      assert c.fids[k] == fids[k];
    }
  }

  lemma EndsGrown(w: World, w': World, t: nat, r: Result)
    requires Ends(w, w', t, r)
    ensures Grown(w, w')
  {
    FewerFids(w.c, r.job.fid);
  }

  lemma GrownThenEnds(w: World, up: World, w': World, t: nat, r: Result)
    requires Grown(w, up) && Ends(up, w', t, r)
    ensures Grown(w, w')
  {
    FewerFids(up.c, r.job.fid);
  }

  lemma BeginGrown(w: World, t: nat, kind: Kind, fid: nat, retries: nat, built: bool, frame: seq<byte>, sent: bool)
    requires Enabled(w, Begin(t, kind, fid, retries, built, frame, sent))
    ensures Grown(w, DoBegin(w, t, kind, fid, retries, built, frame, sent))
  {
    var w' := DoBegin(w, t, kind, fid, retries, built, frame, sent);
    OneMoreFid(w.c);
    if Launches(w, kind, built) {
      var up := DoBegin(w, t, kind, fid, retries, true, frame, true);
      assert Grown(w, up);
      if !sent {
        UnsentEnds(w, t, kind, fid, retries, frame);
        GrownThenEnds(w, up, w', t, SendFailed(up.threads[t].job));
      }
    } else if !built {
      FewerFids(AllocFid(w.c), w.c.nextFid);
    }
  }

  lemma TimeoutGrown(w: World, t: nat, flushed: bool)
    requires Enabled(w, Timeout(t, flushed))
    ensures Grown(w, DoTimeout(w, t, flushed))
  {
    var w', job, i := DoTimeout(w, t, flushed), w.threads[t].job, FreeAt(w.c.slots);
    if job.left == 0 && (i == |w.c.slots| || !flushed) {
      var w0 := if i == |w.c.slots| then w
                else LetGo(w.(c := AllocTag(w.c), owner := w.owner[i := Flush(t)]), i, w.c.nextTag);
      EndEnds(w, w0, t, TimedOut(job));
      EndsGrown(w, w', t, TimedOut(job));
    }
  }

  lemma ResumeGrown(w: World, t: nat, sent: bool)
    requires Enabled(w, Resume(t, sent))
    ensures Grown(w, Apply(w, Resume(t, sent)))
  {
    var w', job := Apply(w, Resume(t, sent)), w.threads[t].job;
    var s := w.c.slots[job.slot];
    if s.complete {
      EndEnds(w, w, t, Outcome(job, s));
      EndsGrown(w, w', t, Outcome(job, s));
    } else if !sent {
      EndEnds(w, w.(c := w.c.(slots := w.c.slots[job.slot := s.(fault := NoFault)])), t, SendFailed(job));
      EndsGrown(w, w', t, SendFailed(job));
    }
  }

  lemma StepGrown(w: World, a: Action)
    requires Enabled(w, a)
    ensures Grown(w, Apply(w, a))
  {
    match a
    case Begin(t, kind, fid, retries, built, frame, sent) => BeginGrown(w, t, kind, fid, retries, built, frame, sent);
    case Receive(frame) =>
    case Wake(t) =>
      var job := w.threads[t].job;
      EndEnds(w, w, t, Outcome(job, w.c.slots[job.slot]));
      EndsGrown(w, Apply(w, a), t, Outcome(job, w.c.slots[job.slot]));
    case Timeout(t, flushed) => TimeoutGrown(w, t, flushed);
    case Resume(t, sent) => ResumeGrown(w, t, sent);
    case FlushEnd(t) =>
      var p := w.threads[t];
      EndEnds(w, LetGo(w, p.fslot, p.ftag), t, TimedOut(p.job));
      EndsGrown(w, Apply(w, a), t, TimedOut(p.job));
  }

  // ---------------------------------------------------------------- on a run

  /** Whenever a call begins, the counter's fid is fresh. */
  predicate AlwaysFresh(w: World, acts: seq<Action>)
    requires Feasible(w, acts)
    decreases |acts|
  {
    |acts| == 0 || ((acts[0].Begin? ==> FreshFid(w)) && AlwaysFresh(Apply(w, acts[0]), acts[1..]))
  }

  lemma BelowStep(w: World, w': World)
    requires Below(w) && Grown(w, w') && w.c.nextFid + 1 < MOD32
    ensures Below(w') && w'.c.nextFid <= w.c.nextFid + 1
  {
  }

  lemma BelowIsFresh(w: World)
    requires Below(w)
    ensures FreshFid(w)
  {
  }

  /** A counter that does not come round is always fresh. */
  lemma {:induction false} NoWrapIsFresh(w: World, acts: seq<Action>)
    requires Feasible(w, acts) && Below(w) && w.c.nextFid + |acts| < MOD32
    ensures AlwaysFresh(w, acts)
    decreases |acts|
  {
    if |acts| > 0 {
      BelowIsFresh(w);
      StepGrown(w, acts[0]);
      BelowStep(w, Apply(w, acts[0]));
      NoWrapIsFresh(Apply(w, acts[0]), acts[1..]);
    }
  }

  lemma {:induction false} BooksKept(w: World, b: Books, acts: seq<Action>)
    requires FidsOk(w, b) && Feasible(w, acts) && AlwaysFresh(w, acts)
    ensures FidsOk(Run(w, acts), Kept(b, w, acts))
    decreases |acts|
  {
    if |acts| > 0 {
      StepFids(w, b, acts[0]);
      BooksKept(Apply(w, acts[0]), Step(b, w, acts[0]), acts[1..]);
    }
  }

  /** No clunk or remove returns for the fid of an auth, attach or walk call that is still in flight. */
  predicate Discreet(w: World, acts: seq<Action>)
    requires Feasible(w, acts)
    decreases |acts|
  {
    |acts| == 0 || (DiscreetStep(w, acts[0]) && Discreet(Apply(w, acts[0]), acts[1..]))
  }

  predicate DiscreetStep(w: World, a: Action)
    requires Enabled(w, a)
  {
    a.Receive? || var q := Apply(w, a).threads[a.t];
                  q.Idle? && Returned(q.result) && DropsFid(q.result.job.kind) ==>
                    !InFlightTo(w.threads, q.result.job.fid)
  }

  /** The fids of the auth, attach and walk calls in flight. */
  function InFlightFids(ps: seq<Pc>): set<nat> {
    set t | 0 <= t < |ps| && !ps[t].Idle? && TakesFid(ps[t].job.kind) :: ps[t].job.fid
  }

  /** The calls in flight that took a fid are the ones on the books. */
  ghost predicate AllFlying(ps: seq<Pc>, b: Books) { forall f: nat :: InFlightTo(ps, f) ==> f in b.flying }

  /** Only thread t moved, from p to q, within one call: a new one's fid, if it took one, is new_. */
  predicate Moved(p: Pc, q: Pc, new_: nat) {
    if !p.Idle? then
      if q.Idle? then Returned(q.result) && q.result.job.kind == p.job.kind && q.result.job.fid == p.job.fid
      else q.job.kind == p.job.kind && q.job.fid == p.job.fid
    else if q.Idle? then Returned(q.result) && TakesFid(q.result.job.kind) ==> q.result.job.fid == new_
    else q.Waiting? && (TakesFid(q.job.kind) ==> q.job.fid == new_)
  }

  lemma StepMoves(w: World, a: Action)
    requires Enabled(w, a) && !a.Receive?
    ensures var w' := Apply(w, a);
            && |w'.threads| == |w.threads| && w'.threads == w.threads[a.t := w'.threads[a.t]]
            && Moved(w.threads[a.t], w'.threads[a.t], w.c.nextFid)
  {
    if a.Begin? && Launches(w, a.kind, a.built) {
      UnsentEnds(w, a.t, a.kind, a.fid, a.retries, a.frame);
    }
  }

  lemma MoveFlies(ps: seq<Pc>, t: nat, q: Pc, new_: nat, b: Books)
    requires t < |ps| && Moved(ps[t], q, new_) && OneEach(ps) && AllFlying(ps, b)
    requires ps[t].Idle? ==> !InFlightTo(ps, new_)
    requires q.Idle? && Returned(q.result) && DropsFid(q.result.job.kind) ==> !InFlightTo(ps, q.result.job.fid)
    ensures AllFlying(ps[t := q], Note(b, ps[t], q))
  {
    var qs := ps[t := q];
    forall f: nat | InFlightTo(qs, f) ensures f in Note(b, ps[t], q).flying {
      var s :| 0 <= s < |qs| && Takes(qs[s], f);
      if s != t || !ps[t].Idle? {
        assert Takes(ps[s], f) && InFlightTo(ps, f);
      }
    }
  }

  lemma StepFlies(w: World, b: Books, a: Action)
    requires FidsOk(w, b) && AllFlying(w.threads, b) && Enabled(w, a) && (a.Begin? ==> FreshFid(w))
    requires DiscreetStep(w, a)
    ensures AllFlying(Apply(w, a).threads, Step(b, w, a))
  {
    if !a.Receive? {
      var w' := Apply(w, a);
      StepMoves(w, a);
      MoveFlies(w.threads, a.t, w'.threads[a.t], w.c.nextFid, b);
    }
  }

  lemma {:induction false} RunFlies(w: World, b: Books, acts: seq<Action>)
    requires FidsOk(w, b) && AllFlying(w.threads, b) && Feasible(w, acts) && AlwaysFresh(w, acts) && Discreet(w, acts)
    ensures AllFlying(Run(w, acts).threads, Kept(b, w, acts))
    decreases |acts|
  {
    if |acts| > 0 {
      StepFids(w, b, acts[0]);
      StepFlies(w, b, acts[0]);
      RunFlies(Apply(w, acts[0]), Step(b, w, acts[0]), acts[1..]);
    }
  }

  /** On every run on which the fid counter does not come round to a fid still in use, no fid has two entries,
      and the fids with an entry are those taken by calls in flight and those established, less what a clunk,
      a remove or a failure gave back. If no call clunks or removes the fid of one still in flight, they are
      exactly the fids of the auth, attach and walk calls in flight and the established ones. */
  lemma FidTableExact(w: World, acts: seq<Action>)
    requires Boot(w) && Feasible(w, acts) && AlwaysFresh(w, acts)
    ensures var w', b := Run(w, acts), Kept(Books({}, {}), w, acts);
            && Single(w'.c.fids) && Table(w'.c.fids) == b.flying + b.held && b.flying !! b.held
            && b.flying <= InFlightFids(w'.threads)
            && (Discreet(w, acts) ==> Table(w'.c.fids) == InFlightFids(w'.threads) + b.held)
  {
    var w', b := Run(w, acts), Kept(Books({}, {}), w, acts);
    StartOk(w);
    BooksKept(w, Books({}, {}), acts);
    FliesAre(w'.threads);
    if Discreet(w, acts) {
      RunFlies(w, Books({}, {}), acts);
    }
  }

  lemma FliesAre(ps: seq<Pc>)
    ensures forall f: nat :: InFlightTo(ps, f) <==> f in InFlightFids(ps)
  {
    forall f: nat ensures InFlightTo(ps, f) <==> f in InFlightFids(ps) {
      if InFlightTo(ps, f) {
        var t :| 0 <= t < |ps| && Takes(ps[t], f);
        assert ps[t].job.fid == f;
      }
      if f in InFlightFids(ps) {
        var t :| 0 <= t < |ps| && !ps[t].Idle? && TakesFid(ps[t].job.kind) && ps[t].job.fid == f;
        assert Takes(ps[t], f);
      }
    }
  }

  /** The same without a word about the table: from power-up, while fewer than 2^32 fids were handed out. */
  lemma FidTableExactUnwrapped(w: World, acts: seq<Action>)
    requires Boot(w) && Feasible(w, acts) && w.c.nextFid + |acts| < MOD32 && Discreet(w, acts)
    ensures var w', b := Run(w, acts), Kept(Books({}, {}), w, acts);
            Single(w'.c.fids) && Table(w'.c.fids) == InFlightFids(w'.threads) + b.held
  {
    NoWrapIsFresh(w, acts);
    FidTableExact(w, acts);
  }

  function Entries(fids: seq<ClientFid>, f: nat): nat {
    if |fids| == 0 then 0 else Entries(fids[1..], f) + if fids[0] == ClientFid(true, f) then 1 else 0
  }

  lemma {:induction false} EntriesOf(fids: seq<ClientFid>, f: nat)
    requires Single(fids)
    ensures Entries(fids, f) == if f in Table(fids) then 1 else 0
  {
    if |fids| > 0 {
      var rest := fids[1..];
      EntriesOf(rest, f);
      assert f in Table(rest) ==> exists k :: 1 <= k < |fids| && fids[k].inUse && fids[k].fid == f by {
        if f in Table(rest) {
          var k :| 0 <= k < |rest| && rest[k].inUse && rest[k].fid == f;
          assert fids[k + 1] == rest[k];
        }
      }
      if f in Table(fids) && fids[0] != ClientFid(true, f) {
        var k :| 0 <= k < |fids| && fids[k].inUse && fids[k].fid == f;
        assert rest[k - 1] == fids[k];
      }
    }
  }

  /** When a call returns: after a clunk or remove, however it went, and after an auth, attach or walk that
      failed, no entry holds its fid; after one that succeeded exactly one does, unless it was clunked or
      removed in between. No other fid gains or loses its entry. */
  lemma ReturnSettlesFid(w: World, b: Books, a: Action)
    requires FidsOk(w, b) && Enabled(w, a) && (a.Begin? ==> FreshFid(w)) && !a.Receive?
    requires var q := Apply(w, a).threads[a.t]; q.Idle? && Returned(q.result)
    ensures var c', r := Apply(w, a).c, Apply(w, a).threads[a.t].result;
            && (DropsFid(r.job.kind) || (TakesFid(r.job.kind) && !Success(r)) ==> Entries(c'.fids, r.job.fid) == 0)
            && (TakesFid(r.job.kind) && Success(r) && r.job.fid in b.flying ==> Entries(c'.fids, r.job.fid) == 1)
            && (forall f :: f != r.job.fid ==> Entries(c'.fids, f) == Entries(w.c.fids, f))
  {
    var w' := Apply(w, a);
    var r := w'.threads[a.t].result;
    StepFids(w, b, a);
    EntriesOf(w'.c.fids, r.job.fid);
    StepMoves(w, a);
    forall f | f != r.job.fid ensures Entries(w'.c.fids, f) == Entries(w.c.fids, f) {
      EntriesOf(w.c.fids, f);
      EntriesOf(w'.c.fids, f);
    }
  }

  /** That no call does so is needed: a clunk or remove that returns for the fid of a call in flight leaves that
      call without an entry. */
  lemma IndiscreetLosesEntry(w: World, b: Books, a: Action)
    requires FidsOk(w, b) && Enabled(w, a) && (a.Begin? ==> FreshFid(w)) && !DiscreetStep(w, a)
    ensures var w' := Apply(w, a); var f := w'.threads[a.t].result.job.fid;
            f in InFlightFids(w'.threads) && f !in Table(w'.c.fids)
  {
    var w' := Apply(w, a);
    var f := w'.threads[a.t].result.job.fid;
    StepFids(w, b, a);
    StepMoves(w, a);
    var s :| 0 <= s < |w.threads| && Takes(w.threads[s], f);
    assert s != a.t && Takes(w'.threads[s], f) && InFlightTo(w'.threads, f);
    FliesAre(w'.threads);
  }
}
