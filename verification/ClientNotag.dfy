/**
 * What the slot does that a version call leaves behind: it takes every reply that carries NOTAG, before
 * any later slot does. Later version calls wait in vain, and so does the request that the tag counter
 * hands NOTAG.
 */
module ClientNotag {
  import opened Bytes
  import opened Client
  import opened ClientRuns

  /** A slot that carries NOTAG is completed by a reply that does exactly when no slot before it carries
      NOTAG too. */
  lemma NotagCompletesIff(slots: seq<Slot>, j: nat, bufSize: nat, frame: seq<byte>)
    requires j < |slots| && Live(slots[j], NOTAG) && !slots[j].complete
    requires HeaderOk(frame) && U16(frame, 5) == NOTAG
    ensures Delivered(slots, bufSize, frame)[j].complete <==> forall k :: 0 <= k < j ==> !Live(slots[k], NOTAG)
  {
  }

  /** Call t waits for a reply that carries NOTAG, behind the leaked slot i. */
  predicate Deaf(w: World, t: nat, i: nat) {
    && t < |w.threads| && InFlight(w.threads[t]) && w.threads[t].job.wire == NOTAG
    && var j := w.threads[t].job.slot;
       i < j < |w.c.slots| == |w.owner| && !w.c.slots[j].complete && w.owner[i].Leaked?
  }

  predicate EmptyHanded(r: Result) { r.TimedOut? || r.SendFailed? }

  /** On a run of the given steps call t does not get an answer: it is still waiting at the end, or the
      first time it returns it has timed out or could not be sent again. */
  predicate Unanswered(w: World, acts: seq<Action>, t: nat)
    requires Feasible(w, acts)
    decreases |acts|
  {
    |acts| == 0
    || (var w1 := Apply(w, acts[0]);
        t < |w1.threads| && var p := w1.threads[t];
                            if p.Idle? then EmptyHanded(p.result) else Unanswered(w1, acts[1..], t))
  }

  // ---------------------------------------------------------------- nothing lets it hear

  /** A call that does not free by NOTAG changes, when it returns, its own slot alone. */
  lemma EndElsewhere(w: World, s: nat, r: Result, k: nat)
    requires WorldOk(w) && s < |w.threads| && InFlight(w.threads[s]) && w.threads[s].job.tag != NOTAG
    requires k < |w.owner| && k != w.threads[s].job.slot
    ensures var job := w.threads[s].job;
            && job.slot < |w.owner| && End(w, s, job, r).owner[k] == w.owner[k]
            && |End(w, s, job, r).c.slots| == |w.c.slots| && End(w, s, job, r).c.slots[k] == w.c.slots[k]
  {
    FreeExact(w, s);
    SettleSlots(w.c, w.threads[s].job, r);
  }

  /** Another call s does not free by NOTAG, and its slot is neither the leaked one nor the deaf call's. */
  lemma Others(w: World, t: nat, i: nat, s: nat)
    requires WorldOk(w) && Deaf(w, t, i) && s < |w.threads| && s != t && InFlight(w.threads[s])
    ensures var p := w.threads[s];
            && p.job.tag != NOTAG && p.job.slot != i && p.job.slot != w.threads[t].job.slot
            && (p.Flushing? ==> p.ftag != NOTAG && p.fslot != i && p.fslot != w.threads[t].job.slot)
  {
    assert ThreadOk(w, s) && ThreadOk(w, t);
    assert NOTAG in Carries(w.threads[t]) && Frees(w.threads[s]) !! Carries(w.threads[t]);
  }

  lemma FreshIsNotNotag(w: World, t: nat, i: nat)
    requires Deaf(w, t, i) && FreshTag(w)
    ensures w.c.nextTag != NOTAG
  {
    assert NOTAG in Carries(w.threads[t]);
  }

  lemma ReceiveDeaf(w: World, t: nat, i: nat, frame: seq<byte>)
    requires WorldOk(w) && Deaf(w, t, i)
    ensures Deaf(Apply(w, Receive(frame)), t, i)
  {
    assert SlotOk(w, i) && ThreadOk(w, t);
  }

  /** It is enough that the two slots and the call's own state stay. */
  lemma StillDeaf(w: World, w': World, t: nat, i: nat)
    requires Deaf(w, t, i) && |w'.threads| == |w.threads| && InFlight(w'.threads[t])
    requires w'.threads[t].job.slot == w.threads[t].job.slot && w'.threads[t].job.wire == NOTAG
    requires |w'.c.slots| == |w'.owner| == |w.owner| && w'.owner[i] == w.owner[i]
    requires !w'.c.slots[w.threads[t].job.slot].complete
    ensures Deaf(w', t, i)
  {
  }

  /** A tag taken for a free slot and given up at once. */
  lemma TriedDeaf(w: World, t: nat, i: nat, s: nat, c: Client, r: Result)
    requires WorldOk(w) && Deaf(w, t, i) && FreshTag(w) && s < |w.threads| && s != t
    requires FreeAt(w.c.slots) < |w.c.slots| && c.slots == AllocTag(w.c).slots
    ensures Deaf(LetGo(w.(c := c, threads := w.threads[s := Idle(r)]), FreeAt(w.c.slots), w.c.nextTag), t, i)
  {
    var n, j := FreeAt(w.c.slots), w.threads[t].job.slot;
    assert SlotOk(w, i) && ThreadOk(w, t) && SlotOk(w, j);
    FreshIsNotNotag(w, t, i);
    FreshFreed(w);
    StillDeaf(w, LetGo(w.(c := c, threads := w.threads[s := Idle(r)]), n, w.c.nextTag), t, i);
  }

  lemma LaunchDeaf(w: World, t: nat, i: nat, s: nat, kind: Kind, fid: nat, retries: nat, frame: seq<byte>, sent: bool)
    requires WorldOk(w) && Deaf(w, t, i) && Enabled(w, Begin(s, kind, fid, retries, true, frame, sent))
    requires FreeAt(w.c.slots) < |w.c.slots| && !(TakesFid(kind) && FreeFidAt(w.c.fids) == |w.c.fids|)
    ensures Deaf(DoBegin(w, s, kind, fid, retries, true, frame, sent), t, i)
  {
    var n, j := FreeAt(w.c.slots), w.threads[t].job.slot;
    assert SlotOk(w, n) && SlotOk(w, i) && ThreadOk(w, t) && SlotOk(w, j);
    var up := DoBegin(w, s, kind, fid, retries, true, frame, true);
    StillDeaf(w, up, t, i);
    if !sent {
      var job := up.threads[s].job;
      BeginOk(w, s, kind, fid, retries, true, frame, true);
      Others(up, t, i, s);
      EndElsewhere(up, s, SendFailed(job), i);
      EndElsewhere(up, s, SendFailed(job), j);
      StillDeaf(up, End(up, s, job, SendFailed(job)), t, i);
      assert up.threads[s := Idle(SendFailed(job))] == w.threads[s := Idle(SendFailed(job))];
      assert DoBegin(w, s, kind, fid, retries, true, frame, false) == End(up, s, job, SendFailed(job));
    }
  }

  lemma BeginDeaf(w: World, t: nat, i: nat, s: nat, kind: Kind, fid: nat, retries: nat, built: bool, frame: seq<byte>,
                  sent: bool)
    requires WorldOk(w) && Deaf(w, t, i) && Enabled(w, Begin(s, kind, fid, retries, built, frame, sent))
    ensures Deaf(DoBegin(w, s, kind, fid, retries, built, frame, sent), t, i)
  {
    if FreeAt(w.c.slots) < |w.c.slots| {
      if TakesFid(kind) && FreeFidAt(w.c.fids) == |w.c.fids| {
        TriedDeaf(w, t, i, s, AllocTag(w.c), NoMemory);
      } else if !built {
        var c1 := if TakesFid(kind) then FreeFid(AllocFid(AllocTag(w.c)), w.c.nextFid) else AllocTag(w.c);
        TriedDeaf(w, t, i, s, c1, BuildFailed);
      } else {
        LaunchDeaf(w, t, i, s, kind, fid, retries, frame, sent);
      }
    }
  }

  /** Another call returns. */
  lemma EndDeaf(w: World, t: nat, i: nat, s: nat, r: Result)
    requires WorldOk(w) && Deaf(w, t, i) && s < |w.threads| && s != t
             && (w.threads[s].Waiting? || w.threads[s].Sleeping?)
    ensures w.threads[s].job.slot < |w.owner| && Deaf(End(w, s, w.threads[s].job, r), t, i)
  {
    var j, job := w.threads[t].job.slot, w.threads[s].job;
    Others(w, t, i, s);
    EndElsewhere(w, s, r, i);
    EndElsewhere(w, s, r, j);
    StillDeaf(w, End(w, s, job, r), t, i);
  }

  /** Another call's flush is over, and with it the call. */
  lemma FlushEndDeaf(w: World, t: nat, i: nat, s: nat)
    requires WorldOk(w) && Deaf(w, t, i) && s < |w.threads| && s != t && w.threads[s].Flushing?
    ensures var p := w.threads[s];
            p.fslot < |w.owner| && p.job.slot < |w.owner|
            && Deaf(End(LetGo(w, p.fslot, p.ftag), s, p.job, TimedOut(p.job)), t, i)
  {
    var p := w.threads[s];
    Others(w, t, i, s);
    FlushFreeExact(w, s);
    FlushOver(w, s);
    var w1 := LetGo(w, p.fslot, p.ftag).(threads := w.threads[s := Waiting(p.job)]);
    StillDeaf(w, w1, t, i);
    EndDeaf(w1, t, i, s, TimedOut(p.job));
    assert w1.threads[s := Idle(TimedOut(p.job))] == w.threads[s := Idle(TimedOut(p.job))];
  }

  lemma TimeoutDeaf(w: World, t: nat, i: nat, s: nat, flushed: bool)
    requires WorldOk(w) && Deaf(w, t, i) && Enabled(w, Timeout(s, flushed)) && s != t
    ensures Deaf(DoTimeout(w, s, flushed), t, i)
  {
    var n, job := FreeAt(w.c.slots), w.threads[s].job;
    if job.left == 0 {
      if n == |w.c.slots| {
        EndDeaf(w, t, i, s, TimedOut(job));
      } else {
        TimeoutOk(w, s, true);
        var up := DoTimeout(w, s, true);
        assert SlotOk(w, n) && SlotOk(w, i) && ThreadOk(w, t) && SlotOk(w, w.threads[t].job.slot);
        StillDeaf(w, up, t, i);
        if !flushed {
          FlushEndDeaf(up, t, i, s);
          assert up.threads[s := Idle(TimedOut(job))] == w.threads[s := Idle(TimedOut(job))];
        }
      }
    }
  }

  lemma ResumeDeaf(w: World, t: nat, i: nat, s: nat, sent: bool)
    requires WorldOk(w) && Deaf(w, t, i) && Enabled(w, Resume(s, sent)) && s != t
    ensures Deaf(Apply(w, Resume(s, sent)), t, i)
  {
    var job := w.threads[s].job;
    var slot := w.c.slots[job.slot];
    Others(w, t, i, s);
    if slot.complete {
      EndDeaf(w, t, i, s, Outcome(job, slot));
    } else if !sent {
      ResumeOk(w, s, true);
      var up := Apply(w, Resume(s, true));
      StillDeaf(w, up, t, i);
      EndDeaf(up, t, i, s, SendFailed(job));
      assert up.threads[s := Idle(SendFailed(job))] == w.threads[s := Idle(SendFailed(job))];
    }
  }

  /** A step of the deaf call itself: it goes on waiting, or returns empty-handed. */
  lemma OwnStepDeaf(w: World, t: nat, i: nat, a: Action)
    requires WorldOk(w) && Deaf(w, t, i) && Enabled(w, a)
    requires (a.Timeout? || a.Resume? || a.FlushEnd?) && a.t == t
    ensures var p := Apply(w, a).threads[t]; if p.Idle? then EmptyHanded(p.result) else Deaf(Apply(w, a), t, i)
  {
    assert ThreadOk(w, t) && SlotOk(w, i) && SlotOk(w, w.threads[t].job.slot);
    if a.Timeout? && FreeAt(w.c.slots) < |w.c.slots| {
      assert SlotOk(w, FreeAt(w.c.slots));
    }
  }

  lemma StepDeaf(w: World, t: nat, i: nat, a: Action)
    requires WorldOk(w) && Deaf(w, t, i) && Enabled(w, a)
    ensures var p := Apply(w, a).threads[t]; if p.Idle? then EmptyHanded(p.result) else Deaf(Apply(w, a), t, i)
  {
    match a
    case Begin(s, kind, fid, retries, built, frame, sent) =>
      BeginDeaf(w, t, i, s, kind, fid, retries, built, frame, sent);
    case Receive(frame) => ReceiveDeaf(w, t, i, frame);
    case Wake(s) => EndDeaf(w, t, i, s, Outcome(w.threads[s].job, w.c.slots[w.threads[s].job.slot]));
    case Timeout(s, flushed) =>
      if s == t { OwnStepDeaf(w, t, i, a); } else { TimeoutDeaf(w, t, i, s, flushed); }
    case Resume(s, sent) =>
      if s == t { OwnStepDeaf(w, t, i, a); } else { ResumeDeaf(w, t, i, s, sent); }
    case FlushEnd(s) =>
      if s == t { OwnStepDeaf(w, t, i, a); } else { FlushEndDeaf(w, t, i, s); }
  }

  /** A call that waits for NOTAG behind a leaked slot is never answered, whatever runs and whatever is
      received. */
  lemma {:induction false} DeafIsUnanswered(w: World, acts: seq<Action>, t: nat, i: nat)
    requires WorldOk(w) && Deaf(w, t, i) && Feasible(w, acts)
    ensures Unanswered(w, acts, t)
    decreases |acts|
  {
    if |acts| > 0 {
      StepOk(w, acts[0]);
      StepDeaf(w, t, i, acts[0]);
      if !Apply(w, acts[0]).threads[t].Idle? {
        DeafIsUnanswered(Apply(w, acts[0]), acts[1..], t, i);
      }
    }
  }

  // ---------------------------------------------------------------- runs that end there

  /** Nobody is calling. */
  predicate AtRest(w: World) {
    WorldOk(w) && |w.threads| > 0 && forall t :: 0 <= t < |w.threads| ==> w.threads[t].Idle?
  }

  /** The steps lead from w to w'. */
  predicate Leads(w: World, acts: seq<Action>, w': World) { Feasible(w, acts) && w' == Run(w, acts) }

  predicate Steps(w: World, a: Action, w': World) { Enabled(w, a) && w' == Apply(w, a) }

  lemma LeadsCons(w: World, a: Action, w1: World, rest: seq<Action>, w': World)
    requires Steps(w, a, w1) && Leads(w1, rest, w')
    ensures Leads(w, [a] + rest, w')
  {
    var acts := [a] + rest;
    assert acts[0] == a && acts[1..] == rest;
  }

  lemma LeadsOne(w: World, a: Action)
    requires Enabled(w, a)
    ensures Leads(w, [a], Apply(w, a))
  {
    assert [a][1..] == [];
    assert Feasible(Apply(w, a), []);
  }

  lemma ThreeSteps(w: World, a: Action, w1: World, b: Action, w2: World, c: Action, w3: World)
    requires Steps(w, a, w1) && Steps(w1, b, w2) && Steps(w2, c, w3)
    ensures Leads(w, [a, b, c], w3)
  {
    LeadsOne(w2, c);
    LeadsCons(w1, b, w2, [c], w3);
    LeadsCons(w, a, w1, [b] + [c], w3);
    assert [a] + ([b] + [c]) == [a, b, c];
  }

  /** A version call on slot 0 that is answered. */
  function VersionCall(tversion: seq<byte>, rversion: seq<byte>): seq<Action> {
    [Begin(0, Version, 0, 0, true, tversion, true), Receive(rversion), Wake(0)]
  }

  predicate AnswersVersion(w: World, m: seq<byte>) {
    HeaderOk(m) && U16(m, 5) == NOTAG && m[4] != RERROR && |m| <= w.c.bufSize
  }

  /** Call 0, a version call, waits in slot 0; everything else is as in w. */
  predicate AsksVersion(w: World, w': World) {
    && WorldOk(w') && w'.c.bufSize == w.c.bufSize && w'.c.nextTag == w.c.nextTag + 1
    && |w.threads| > 0 && |w.owner| > 0 && w'.owner == w.owner[0 := Main(0)]
    && |w'.threads| == |w.threads| && w'.threads == w.threads[0 := w'.threads[0]] && w'.threads[0].Waiting?
    && var job := w'.threads[0].job; job.kind.Version? && job.slot == 0 && Leaks(job)
  }

  lemma BeginsVersion(w: World, tversion: seq<byte>)
    requires AtRest(w) && |w.owner| > 0 && w.owner[0].Nobody? && w.c.nextTag < NOTAG
    ensures var a := Begin(0, Version, 0, 0, true, tversion, true); Enabled(w, a) && AsksVersion(w, Apply(w, a))
  {
    assert SlotOk(w, 0);
    StepOk(w, Begin(0, Version, 0, 0, true, tversion, true));
  }

  lemma HearsVersion(w: World, w1: World, m: seq<byte>)
    requires AsksVersion(w, w1) && AnswersVersion(w1, m)
    ensures var w2 := Apply(w1, Receive(m));
            && AsksVersion(w, w2) && w2.c.slots[0].complete && w2.c.slots[0].rx == m
            && Outcome(w2.threads[0].job, w2.c.slots[0]).Answered?
  {
    assert ThreadOk(w1, 0) && SlotOk(w1, 0);
    assert Live(w1.c.slots[0], NOTAG);
    StepOk(w1, Receive(m));
  }

  lemma ReturnsVersion(w: World, w2: World)
    requires AtRest(w) && AsksVersion(w, w2) && w2.c.slots[0].complete
             && Outcome(w2.threads[0].job, w2.c.slots[0]).Answered?
    ensures Enabled(w2, Wake(0))
    ensures var w3 := Apply(w2, Wake(0));
            && AtRest(w3) && w3.owner == w.owner[0 := Leaked] && w3.c.nextTag == w.c.nextTag + 1
            && |w3.threads| == |w.threads|
            && w3.threads[0].result.Answered? && w3.threads[0].result.rx == w2.c.slots[0].rx
  {
    FreeExact(w2, 0);
    StepOk(w2, Wake(0));
    assert w2.owner[0 := Leaked] == w.owner[0 := Leaked];
  }

  /** It returns with its answer and leaves slot 0 in use; all else is as it was. */
  lemma VersionCallLeaks(w: World, tversion: seq<byte>, rversion: seq<byte>)
    requires AtRest(w) && |w.owner| > 0 && w.owner[0].Nobody? && w.c.nextTag < NOTAG && AnswersVersion(w, rversion)
    ensures Feasible(w, VersionCall(tversion, rversion))
    ensures var w' := Run(w, VersionCall(tversion, rversion));
            && AtRest(w') && w'.owner == w.owner[0 := Leaked] && w'.c.nextTag == w.c.nextTag + 1
            && |w'.threads| == |w.threads| && w'.threads[0].result.Answered? && w'.threads[0].result.rx == rversion
  {
    var a, b, c := Begin(0, Version, 0, 0, true, tversion, true), Receive(rversion), Wake(0);
    BeginsVersion(w, tversion);
    var w1 := Apply(w, a);
    HearsVersion(w, w1, rversion);
    var w2 := Apply(w1, b);
    ReturnsVersion(w, w2);
    ThreeSteps(w, a, w1, b, w2, c, Apply(w2, c));
  }

  /** The next call that carries NOTAG takes a later slot and waits in vain. */
  lemma NextIsDeaf(w: World, kind: Kind, fid: nat, frame: seq<byte>)
    requires AtRest(w) && |w.owner| > 1 && w.owner[0].Leaked? && FreeAt(w.c.slots) < |w.c.slots|
    requires kind.Version? || (w.c.nextTag == NOTAG && !TakesFid(kind))
    ensures var a := Begin(0, kind, fid, 0, true, frame, true); Enabled(w, a) && Deaf(Apply(w, a), 0, 0)
  {
    assert SlotOk(w, 0);
  }

  /** From there on it is not answered, whatever happens. */
  lemma NextIsUnanswered(w: World, kind: Kind, fid: nat, frame: seq<byte>, later: seq<Action>)
    requires AtRest(w) && |w.owner| > 1 && w.owner[0].Leaked? && w.owner[1].Nobody?
    requires kind.Version? || (w.c.nextTag == NOTAG && !TakesFid(kind))
    ensures var a := Begin(0, kind, fid, 0, true, frame, true);
            && Enabled(w, a) && var w' := Apply(w, a);
               |w'.threads| == |w.threads| && w'.threads[0].Waiting? && w'.threads[0].job.kind == kind
               && (Feasible(w', later) ==> Unanswered(w', later, 0))
  {
    var a := Begin(0, kind, fid, 0, true, frame, true);
    assert SlotOk(w, 1);
    NextIsDeaf(w, kind, fid, frame);
    StepOk(w, a);
    if Feasible(Apply(w, a), later) {
      DeafIsUnanswered(Apply(w, a), later, 0, 0);
    }
  }

  /** From power-up: after one answered version call, the second is never answered. */
  lemma SecondVersionDeaf(w: World, tversion: seq<byte>, rversion: seq<byte>, later: seq<Action>)
    requires Boot(w) && |w.threads| > 0 && |w.c.slots| > 1 && w.c.nextTag < NOTAG && AnswersVersion(w, rversion)
    ensures Feasible(w, VersionCall(tversion, rversion))
    ensures var w1, again := Run(w, VersionCall(tversion, rversion)), Begin(0, Version, 0, 0, true, tversion, true);
            && Enabled(w1, again) && var w' := Apply(w1, again);
               |w'.threads| == |w.threads| && w'.threads[0].Waiting? && w'.threads[0].job.kind.Version?
               && (Feasible(w', later) ==> Unanswered(w', later, 0))
  {
    BootOk(w);
    VersionCallLeaks(w, tversion, rversion);
    NextIsUnanswered(Run(w, VersionCall(tversion, rversion)), Version, 0, tversion, later);
  }

  // ---------------------------------------------------------------- the counter comes to NOTAG

  const FAILS := Begin(0, Other, 0, 0, false, [], true)

  function Repeat(n: nat): seq<Action> { if n == 0 then [] else [FAILS] + Repeat(n - 1) }

  /** A call whose message cannot be built uses up a tag and nothing else. */
  lemma FailedCall(w: World)
    requires AtRest(w) && FreeAt(w.c.slots) < |w.c.slots| && w.c.nextTag < NOTAG
    ensures Enabled(w, FAILS)
    ensures var w' := Apply(w, FAILS);
            && AtRest(w') && w'.owner == w.owner && w'.c.nextTag == w.c.nextTag + 1 && |w'.threads| == |w.threads|
            && FreeAt(w'.c.slots) < |w'.c.slots|
  {
    StepOk(w, FAILS);
    FreshFreed(w);
    var i, w' := FreeAt(w.c.slots), Apply(w, FAILS);
    assert w.owner[i := Leaked][i := Nobody] == w.owner;
    assert SlotOk(w', i);
  }

  lemma {:induction false} CounterRuns(w: World, n: nat)
    requires AtRest(w) && FreeAt(w.c.slots) < |w.c.slots| && w.c.nextTag + n <= NOTAG
    ensures Feasible(w, Repeat(n))
    ensures var w' := Run(w, Repeat(n));
            AtRest(w') && w'.owner == w.owner && w'.c.nextTag == w.c.nextTag + n && |w'.threads| == |w.threads|
    decreases n
  {
    if n > 0 {
      FailedCall(w);
      CounterRuns(Apply(w, FAILS), n - 1);
      assert Repeat(n)[1..] == Repeat(n - 1);
    }
  }

  /** From power-up: after one answered version call, and as many calls as bring the counter to NOTAG, the
      request that is handed NOTAG is never answered. */
  lemma WrappedRequestDeaf(w: World, tversion: seq<byte>, rversion: seq<byte>, fid: nat, frame: seq<byte>,
                           later: seq<Action>)
    requires Boot(w) && |w.threads| > 0 && |w.c.slots| > 1 && w.c.nextTag < NOTAG && AnswersVersion(w, rversion)
    ensures Feasible(w, VersionCall(tversion, rversion))
    ensures var w1, calls := Run(w, VersionCall(tversion, rversion)), Repeat(NOTAG - 1 - w.c.nextTag);
            && Feasible(w1, calls)
            && var w2, a := Run(w1, calls), Begin(0, Other, fid, 0, true, frame, true);
               && Enabled(w2, a) && var w' := Apply(w2, a);
                  |w'.threads| == |w.threads| && w'.threads[0].Waiting? && w'.threads[0].job.tag == NOTAG
                  && (Feasible(w', later) ==> Unanswered(w', later, 0))
  {
    BootOk(w);
    VersionCallLeaks(w, tversion, rversion);
    var w1, n := Run(w, VersionCall(tversion, rversion)), NOTAG - 1 - w.c.nextTag;
    assert SlotOk(w1, 1);
    CounterRuns(w1, n);
    NextIsUnanswered(Run(w1, Repeat(n)), Other, fid, frame, later);
  }
}
