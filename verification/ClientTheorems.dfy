/** Tag multiplexing, for every interleaving of any number of requests. */
module ClientTheorems {
  import opened Bytes
  import opened Client
  import opened ClientRuns

  /** A request that returned bytes returned a frame that carried its own tag and arrived after the
      request began, whatever else was in flight and however often the lock changed hands. */
  lemma WaitersGetTheirOwn(w: World, acts: seq<Action>, t: nat)
    requires Boot(w) && Feasible(w, acts) && t < |Run(w, acts).threads|
    ensures var w' := Run(w, acts); var p := w'.threads[t];
            p.Idle? && p.result.Answered? ==>
              && |p.result.rx| >= 7 && U16(p.result.rx, 5) == p.result.job.wire
              && ReceivedSince(p.result.job.from, w'.got, p.result.rx)
  {
    BootOk(w);
    RunOk(w, acts);
    assert ThreadOk(Run(w, acts), t);
  }

  predicate HoldsSlot(p: Pc, i: nat) { InFlight(p) && (p.job.slot == i || (p.Flushing? && p.fslot == i)) }

  /** No slot, and so no pair of buffers, serves two requests at once, nor a request and its flush. */
  lemma SlotsApart(w: World, acts: seq<Action>, s: nat, t: nat, i: nat)
    requires Boot(w) && Feasible(w, acts) && s < |Run(w, acts).threads| && t < |Run(w, acts).threads|
    requires HoldsSlot(Run(w, acts).threads[s], i) && HoldsSlot(Run(w, acts).threads[t], i)
    ensures s == t && i < |Run(w, acts).c.slots| && Run(w, acts).c.slots[i].inUse
    ensures var p := Run(w, acts).threads[t]; p.Flushing? ==> p.job.slot != p.fslot
  {
    BootOk(w);
    RunOk(w, acts);
    assert ThreadOk(Run(w, acts), s) && ThreadOk(Run(w, acts), t);
    assert SlotOk(Run(w, acts), i);
  }

  lemma SameFind(a: seq<Slot>, b: seq<Slot>, tag: nat)
    requires |a| == |b| && forall k :: 0 <= k < |a| ==> (Live(a[k], tag) <==> Live(b[k], tag))
    ensures FindTag(a, tag) == FindTag(b, tag)
  {
  }

  /** The counter hands NOTAG to a flush that cannot be sent, while a slot that carries NOTAG lies before
      the one the flush takes: giving the tag up at once frees the earlier slot and leaves the flush's in
      use. */
  predicate FlushSwaps(w: World, a: Action) {
    && a.Timeout? && !a.flushed && w.c.nextTag == NOTAG
    && FindTag(w.c.slots, NOTAG) < FreeAt(w.c.slots) < |w.c.slots|
  }

  /** Whose slot k is before the call itself is over: a flush that could not be sent may have swapped two. */
  function Tried(w: World, a: Action, k: nat): Owner
    requires k < |w.owner|
  {
    if FlushSwaps(w, a) && k == FindTag(w.c.slots, NOTAG) then Nobody
    else if FlushSwaps(w, a) && k == FreeAt(w.c.slots) then Leaked
    else w.owner[k]
  }

  /** Whose slot k is once thread t has returned by the step a. */
  function OwnerAfter(w: World, a: Action, t: nat, k: nat): Owner
    requires t < |w.threads| && InFlight(w.threads[t]) && k < |w.owner|
  {
    var p := w.threads[t];
    if k == FindTag(w.c.slots, p.job.tag) then Nobody
    else if k == p.job.slot then Leaked
    else if p.Flushing? && k == FindTag(w.c.slots, p.ftag) then Nobody
    else if p.Flushing? && k == p.fslot then Leaked
    else Tried(w, a, k)
  }

  /** Ending the call gives its slots away as OwnerAfter says, if no flush is under way. */
  lemma EndOwner(w: World, a: Action, t: nat, w1: World, r: Result, k: nat)
    requires WorldOk(w) && t < |w.threads| == |w1.threads| && (w.threads[t].Waiting? || w.threads[t].Sleeping?)
             && k < |w.owner|
    requires |w1.owner| == |w.owner| == |w1.c.slots| && w1.owner[k] == Tried(w, a, k)
    requires FindTag(w1.c.slots, w.threads[t].job.tag) == FindTag(w.c.slots, w.threads[t].job.tag)
    ensures w.threads[t].job.slot < |w.owner| && End(w1, t, w.threads[t].job, r).owner[k] == OwnerAfter(w, a, t, k)
  {
    FreeExact(w, t);
  }

  lemma ResumeOwner(w: World, t: nat, sent: bool, k: nat)
    requires WorldOk(w) && Enabled(w, Resume(t, sent)) && k < |w.owner| && Apply(w, Resume(t, sent)).threads[t].Idle?
    ensures var a := Resume(t, sent); |Apply(w, a).owner| == |w.owner| && Apply(w, a).owner[k] == OwnerAfter(w, a, t, k)
  {
    var a, job := Resume(t, sent), w.threads[t].job;
    var s := w.c.slots[job.slot];
    if s.complete {
      EndOwner(w, a, t, w, Outcome(job, s), k);
    } else {
      var slots := w.c.slots[job.slot := s.(fault := NoFault)];
      SameFind(w.c.slots, slots, job.tag);
      EndOwner(w, a, t, w.(c := w.c.(slots := slots)), SendFailed(job), k);
    }
  }

  /** Two tags freed, one after the other, that find different slots. */
  lemma VacatedTwice(owner: seq<Owner>, slots: seq<Slot>, slots1: seq<Slot>, fslot: nat, ftag: nat, slot: nat, tag: nat,
                     k: nat)
    requires |owner| == |slots| == |slots1| && slot < |owner| && fslot < |owner| && k < |owner| && slot != fslot
    requires FindTag(slots1, tag) == FindTag(slots, tag)
    requires var f, g := FindTag(slots, tag), FindTag(slots, ftag); f != g && f != fslot && g != slot && g < |slots|
    ensures Vacated(Vacated(owner, slots, fslot, ftag), slots1, slot, tag)[k]
            == if k == FindTag(slots, tag) then Nobody else if k == slot then Leaked
               else if k == FindTag(slots, ftag) then Nobody else if k == fslot then Leaked else owner[k]
  {
  }

  /** What the flush's tag finds, the request's own does not. */
  lemma FlushOwner(w: World, t: nat, k: nat)
    requires WorldOk(w) && Enabled(w, FlushEnd(t)) && k < |w.owner|
    ensures var a := FlushEnd(t); |Apply(w, a).owner| == |w.owner| && Apply(w, a).owner[k] == OwnerAfter(w, a, t, k)
  {
    var p, slots1 := w.threads[t], FreeTag(w.c.slots, w.threads[t].ftag);
    assert ThreadOk(w, t);
    FreeExact(w, t);
    FlushFreeExact(w, t);
    SameFind(w.c.slots, slots1, p.job.tag);
    VacatedTwice(w.owner, w.c.slots, slots1, p.fslot, p.ftag, p.job.slot, p.job.tag, k);
  }

  /** A tag taken for the first free slot is found there, or in the slot before it that carries it. */
  lemma TakenFound(c: Client)
    requires FreeAt(c.slots) < |c.slots|
    ensures var i, f := FreeAt(c.slots), FindTag(c.slots, c.nextTag);
            FindTag(AllocTag(c).slots, c.nextTag) == if f < i then f else i
  {
    var i, slots := FreeAt(c.slots), AllocTag(c).slots;
    assert Live(slots[i], c.nextTag) && !Live(c.slots[i], c.nextTag);
    assert forall k :: 0 <= k < i ==> slots[k] == c.slots[k];
  }

  /** A flush tag given up at once leaves the owners as they were, but for a swap, and what other tags find. */
  lemma FlushTried(w: World, a: Action, t: nat, w1: World, tag: nat, k: nat)
    requires WorldOk(w) && FreshTag(w) && FreeAt(w.c.slots) < |w.c.slots| && tag != w.c.nextTag && k < |w.owner|
    requires a.Timeout? && !a.flushed && w1.c == AllocTag(w.c) && w1.owner == w.owner[FreeAt(w.c.slots) := Flush(t)]
    ensures var w2 := LetGo(w1, FreeAt(w.c.slots), w.c.nextTag);
            && |w2.owner| == |w2.c.slots| == |w.owner| && w2.owner[k] == Tried(w, a, k)
            && FindTag(w2.c.slots, tag) == FindTag(w.c.slots, tag)
  {
    TakenFound(w.c);
    FreshFreed(w);
    SameFind(w.c.slots, LetGo(w1, FreeAt(w.c.slots), w.c.nextTag).c.slots, tag);
  }

  lemma TimeoutOwner(w: World, t: nat, flushed: bool, k: nat)
    requires WorldOk(w) && Enabled(w, Timeout(t, flushed)) && k < |w.owner|
    requires DoTimeout(w, t, flushed).threads[t].Idle?
    ensures |DoTimeout(w, t, flushed).owner| == |w.owner|
    ensures DoTimeout(w, t, flushed).owner[k] == OwnerAfter(w, Timeout(t, flushed), t, k)
  {
    var a, i, job := Timeout(t, flushed), FreeAt(w.c.slots), w.threads[t].job;
    if i == |w.c.slots| {
      EndOwner(w, a, t, w, TimedOut(job), k);
    } else {
      var w1 := w.(c := AllocTag(w.c), owner := w.owner[i := Flush(t)]);
      assert job.tag in Frees(w.threads[t]);
      FlushTried(w, a, t, w1, job.tag, k);
      EndOwner(w, a, t, LetGo(w1, i, w.c.nextTag), TimedOut(job), k);
    }
  }

  /** A call returns by a step of its own. */
  lemma ReturnsItself(w: World, a: Action, t: nat)
    requires Enabled(w, a) && t < |w.threads| && InFlight(w.threads[t]) && Apply(w, a).threads[t].Idle?
    ensures (a.Wake? || a.Timeout? || a.Resume? || a.FlushEnd?) && a.t == t
  {
    if a.Begin? {
      BeginOthers(w, a.t, a.kind, a.fid, a.retries, a.built, a.frame, a.sent, t);
    }
  }

  lemma ReturnOwner(w: World, a: Action, t: nat, k: nat)
    requires WorldOk(w) && Enabled(w, a) && t < |w.threads| && k < |w.owner|
    requires InFlight(w.threads[t]) && Apply(w, a).threads[t].Idle?
    ensures |Apply(w, a).owner| == |w.owner| && Apply(w, a).owner[k] == OwnerAfter(w, a, t, k)
  {
    ReturnsItself(w, a, t);
    if a.Wake? {
      EndOwner(w, a, t, w, Outcome(w.threads[t].job, w.c.slots[w.threads[t].job.slot]), k);
    } else if a.Timeout? {
      TimeoutOwner(w, t, a.flushed, k);
    } else if a.Resume? {
      ResumeOwner(w, t, a.sent, k);
    } else {
      FlushOwner(w, t, k);
    }
  }

  /** A request that begins leaves the other threads where they are. */
  lemma BeginOthers(w: World, s: nat, kind: Kind, fid: nat, retries: nat, built: bool, frame: seq<byte>, sent: bool,
                    t: nat)
    requires s < |w.threads| && t < |w.threads| && |w.owner| == |w.c.slots| && s != t
    ensures DoBegin(w, s, kind, fid, retries, built, frame, sent).threads[t] == w.threads[t]
  {
  }

  /** The slot that freeing by `tag` gives back for a call that holds `slot`: its own or, under NOTAG, the
      first that carries NOTAG. */
  function GivenBack(w: World, slot: nat, tag: nat): nat { if tag == NOTAG then FindTag(w.c.slots, NOTAG) else slot }

  /** Slot k comes free in the step a in which thread t returns. */
  predicate ComesFree(w: World, a: Action, t: nat, k: nat)
    requires t < |w.threads| && InFlight(w.threads[t])
  {
    var p := w.threads[t];
    || (k == GivenBack(w, p.job.slot, p.job.tag) && !Leaks(p.job))
    || (p.Flushing? && k == GivenBack(w, p.fslot, p.ftag))
    || (FlushSwaps(w, a) && k == FindTag(w.c.slots, NOTAG))
  }

  /** In the step in which a request returns, exactly the slots it took are given back: its own, unless
      it was a version call, and its flush's. Every other slot stays as it was. For a tag NOTAG it is the
      first slot that carries it, which is the call's own exactly when no leaked slot lies before it. A
      flush under NOTAG that could not be sent, behind a slot that carries NOTAG, keeps the slot it took
      and that one comes free. */
  lemma ReturnGivesBack(w: World, a: Action, t: nat, k: nat)
    requires WorldOk(w) && Enabled(w, a) && t < |w.threads| && k < |w.c.slots|
    requires InFlight(w.threads[t]) && Apply(w, a).threads[t].Idle?
    ensures var w' := Apply(w, a);
            |w'.c.slots| == |w.c.slots| && w'.c.slots[k].inUse ==
              ((w.c.slots[k].inUse && !ComesFree(w, a, t, k)) || (FlushSwaps(w, a) && k == FreeAt(w.c.slots)))
    ensures var p := w.threads[t];
            GivenBack(w, p.job.slot, p.job.tag) == p.job.slot
            <==> p.job.tag != NOTAG || forall i :: 0 <= i < p.job.slot ==> !w.owner[i].Leaked?
  {
    StepOk(w, a);
    ReturnsItself(w, a, t);
    ReturnOwner(w, a, t, k);
    FreeExact(w, t);
    if w.threads[t].Flushing? {
      FlushFreeExact(w, t);
    }
    assert ThreadOk(w, t) && SlotOk(w, k) && SlotOk(Apply(w, a), k);
    if w.threads[t].job.tag == NOTAG {
      LeakedBefore(w, t);
    }
  }

  /** Under NOTAG a call finds a slot before its own exactly when a leaked one lies there. */
  lemma LeakedBefore(w: World, t: nat)
    requires WorldOk(w) && t < |w.threads| && InFlight(w.threads[t]) && w.threads[t].job.tag == NOTAG
    ensures var job := w.threads[t].job;
            && job.slot < |w.owner|
            && (FindTag(w.c.slots, NOTAG) == job.slot <==> forall i :: 0 <= i < job.slot ==> !w.owner[i].Leaked?)
  {
    FreeExact(w, t);
    var job := w.threads[t].job;
    forall i | 0 <= i < job.slot && w.owner[i].Leaked? ensures Live(w.c.slots[i], NOTAG) {
      assert SlotOk(w, i);
    }
  }

  // ---------------------------------------------------------------- the census

  function Used(slots: seq<Slot>): nat {
    if |slots| == 0 then 0 else (if slots[0].inUse then 1 else 0) + Used(slots[1..])
  }

  function Held(owner: seq<Owner>): nat {
    if |owner| == 0 then 0 else (if owner[0].Nobody? then 0 else 1) + Held(owner[1..])
  }

  function Weight(p: Pc): nat { if p.Idle? then 0 else if p.Flushing? then 2 else 1 }

  function InFlightSlots(ps: seq<Pc>): nat {
    if |ps| == 0 then 0 else Weight(ps[0]) + InFlightSlots(ps[1..])
  }

  lemma {:induction false} HeldUpdate(owner: seq<Owner>, i: nat, o: Owner)
    requires i < |owner|
    ensures Held(owner[i := o]) + (if owner[i].Nobody? then 0 else 1) == Held(owner) + (if o.Nobody? then 0 else 1)
  {
    if i > 0 {
      HeldUpdate(owner[1..], i - 1, o);
      assert owner[i := o][1..] == owner[1..][i - 1 := o];
    }
  }

  lemma {:induction false} WeightUpdate(ps: seq<Pc>, t: nat, p: Pc)
    requires t < |ps|
    ensures InFlightSlots(ps[t := p]) + Weight(ps[t]) == InFlightSlots(ps) + Weight(p)
  {
    if t > 0 {
      WeightUpdate(ps[1..], t - 1, p);
      assert ps[t := p][1..] == ps[1..][t - 1 := p];
    }
  }

  lemma {:induction false} UsedIsHeld(slots: seq<Slot>, owner: seq<Owner>)
    requires |slots| == |owner| && forall i :: 0 <= i < |slots| ==> slots[i].inUse == !owner[i].Nobody?
    ensures Used(slots) == Held(owner)
    decreases |slots|
  {
    if |slots| > 0 {
      UsedIsHeld(slots[1..], owner[1..]);
    }
  }

  predicate Census(w: World) { Held(w.owner) == InFlightSlots(w.threads) + w.leaks }

  /** The call on slot i frees by tag: what it held is counted off, unless freeing finds nothing. */
  lemma VacatedHeld(owner: seq<Owner>, slots: seq<Slot>, i: nat, tag: nat)
    requires i < |owner| == |slots|
    requires var f := FindTag(slots, tag); f == |slots| || f == i || !owner[f].Nobody?
    ensures Held(Vacated(owner, slots, i, tag))
            + (if owner[i].Nobody? then 0 else 1) + (if FindTag(slots, tag) == |slots| then 0 else 1)
            == Held(owner) + 1
  {
    HeldUpdate(owner, i, Leaked);
    var f := FindTag(slots, tag);
    if f < |slots| {
      HeldUpdate(owner[i := Leaked], f, Nobody);
    }
  }

  lemma EndCensus(w: World, t: nat, job: Job, r: Result)
    requires t < |w.threads| && job.slot < |w.owner| == |w.c.slots| && w.owner[job.slot] == Main(t)
    requires var f := FindTag(w.c.slots, job.tag);
             if Leaks(job) then f == |w.c.slots| else f < |w.c.slots| && (f == job.slot || w.owner[f].Leaked?)
    requires Held(w.owner) == InFlightSlots(w.threads) - Weight(w.threads[t]) + 1 + w.leaks
    ensures Census(End(w, t, job, r))
  {
    VacatedHeld(w.owner, w.c.slots, job.slot, job.tag);
    WeightUpdate(w.threads, t, Idle(r));
  }

  lemma BeginCensus(w: World, t: nat, kind: Kind, fid: nat, retries: nat, built: bool, frame: seq<byte>, sent: bool)
    requires WorldOk(w) && Census(w) && t < |w.threads| && w.threads[t].Idle? && FreshTag(w)
             && (kind.Version? ==> NotagSpare(w))
    ensures Census(DoBegin(w, t, kind, fid, retries, built, frame, sent))
  {
    var i, w' := FreeAt(w.c.slots), DoBegin(w, t, kind, fid, retries, built, frame, sent);
    var noFid := TakesFid(kind) && FreeFidAt(w.c.fids) == |w.c.fids|;
    WeightUpdate(w.threads, t, w'.threads[t]);
    if i < |w.c.slots| {
      FreshFreed(w);
      if noFid || !built {
        VacatedHeld(w.owner, AllocTag(w.c).slots, i, w.c.nextTag);
      } else {
        HeldUpdate(w.owner, i, Main(t));
        if !sent {
          BeginOk(w, t, kind, fid, retries, true, frame, true);
          var up := DoBegin(w, t, kind, fid, retries, true, frame, true);
          FreeExact(up, t);
          EndCensus(up.(threads := w.threads), t, up.threads[t].job, SendFailed(up.threads[t].job));
        }
      }
    }
  }

  lemma FlushCensus(w: World, t: nat)
    requires WorldOk(w) && Census(w) && Enabled(w, Timeout(t, true)) && w.threads[t].job.left == 0
             && FreeAt(w.c.slots) < |w.c.slots|
    ensures Census(DoTimeout(w, t, true))
  {
    var i := FreeAt(w.c.slots);
    assert SlotOk(w, i);
    HeldUpdate(w.owner, i, Flush(t));
    WeightUpdate(w.threads, t, Flushing(w.threads[t].job, i, w.c.nextTag));
  }

  lemma TimeoutCensus(w: World, t: nat, flushed: bool)
    requires WorldOk(w) && Census(w) && Enabled(w, Timeout(t, flushed))
    ensures Census(DoTimeout(w, t, flushed))
  {
    var i, job := FreeAt(w.c.slots), w.threads[t].job;
    if job.left > 0 {
      WeightUpdate(w.threads, t, Sleeping(job.(left := job.left - 1)));
    } else if i == |w.c.slots| {
      FreeExact(w, t);
      EndCensus(w, t, job, TimedOut(job));
    } else {
      FlushCensus(w, t);
      if !flushed {
        TimeoutOk(w, t, true);
        var up := DoTimeout(w, t, true);
        FlushEndCensus(up, t);
        assert up.threads[t := Idle(TimedOut(job))] == w.threads[t := Idle(TimedOut(job))];
      }
    }
  }

  lemma FlushEndCensus(w: World, t: nat)
    requires WorldOk(w) && Census(w) && t < |w.threads| && w.threads[t].Flushing?
    ensures var p := w.threads[t];
            p.fslot < |w.owner| && p.job.slot < |w.owner|
            && Census(End(LetGo(w, p.fslot, p.ftag), t, p.job, TimedOut(p.job)))
  {
    var p := w.threads[t];
    FlushOver(w, t);
    FlushFreeExact(w, t);
    var w1 := LetGo(w, p.fslot, p.ftag);
    VacatedHeld(w.owner, w.c.slots, p.fslot, p.ftag);
    FreeExact(w1.(threads := w.threads[t := Waiting(p.job)]), t);
    EndCensus(w1, t, p.job, TimedOut(p.job));
  }

  lemma StepCensus(w: World, a: Action)
    requires WorldOk(w) && Census(w) && Enabled(w, a)
    ensures Census(Apply(w, a))
  {
    match a
    case Begin(t, kind, fid, retries, built, frame, sent) => BeginCensus(w, t, kind, fid, retries, built, frame, sent);
    case Receive(_) =>
    case Wake(t) =>
      FreeExact(w, t);
      EndCensus(w, t, w.threads[t].job, Outcome(w.threads[t].job, w.c.slots[w.threads[t].job.slot]));
    case Timeout(t, flushed) => TimeoutCensus(w, t, flushed);
    case Resume(t, sent) => ResumeCensus(w, t, sent);
    case FlushEnd(t) => FlushEndCensus(w, t);
  }

  lemma ResumeCensus(w: World, t: nat, sent: bool)
    requires WorldOk(w) && Census(w) && Enabled(w, Resume(t, sent))
    ensures Census(Apply(w, Resume(t, sent)))
  {
    FreeExact(w, t);
    var job := w.threads[t].job;
    var s := w.c.slots[job.slot];
    if s.complete {
      EndCensus(w, t, job, Outcome(job, s));
    } else if sent {
      WeightUpdate(w.threads, t, Waiting(job));
    } else {
      var slots := w.c.slots[job.slot := s.(fault := NoFault)];
      SameFind(w.c.slots, slots, job.tag);
      EndCensus(w.(c := w.c.(slots := slots)), t, job, SendFailed(job));
    }
  }

  lemma {:induction false} RunCensus(w: World, acts: seq<Action>)
    requires WorldOk(w) && Census(w) && Feasible(w, acts)
    ensures Census(Run(w, acts))
    decreases |acts|
  {
    if |acts| > 0 {
      StepOk(w, acts[0]);
      StepCensus(w, acts[0]);
      RunCensus(Apply(w, acts[0]), acts[1..]);
    }
  }

  lemma {:induction false} NoneHeld(owner: seq<Owner>)
    requires forall i :: 0 <= i < |owner| ==> owner[i].Nobody?
    ensures Held(owner) == 0
    decreases |owner|
  {
    if |owner| > 0 {
      NoneHeld(owner[1..]);
    }
  }

  lemma {:induction false} NoneInFlight(ps: seq<Pc>)
    requires forall t :: 0 <= t < |ps| ==> ps[t].Idle?
    ensures InFlightSlots(ps) == 0
    decreases |ps|
  {
    if |ps| > 0 {
      NoneInFlight(ps[1..]);
    }
  }

  /** In every reachable state the slots in use are one for each request in flight, one for each flush
      in flight, and one for each version call that returned after it was built, unless the counter had
      handed it NOTAG: nothing else leaks, and nothing is given back twice. */
  lemma SlotsConserved(w: World, acts: seq<Action>)
    requires Boot(w) && Feasible(w, acts)
    ensures var w' := Run(w, acts); Used(w'.c.slots) == InFlightSlots(w'.threads) + w'.leaks
  {
    BootOk(w);
    NoneHeld(w.owner);
    NoneInFlight(w.threads);
    RunCensus(w, acts);
    RunOk(w, acts);
    var w' := Run(w, acts);
    forall i | 0 <= i < |w'.owner| ensures w'.c.slots[i].inUse == !w'.owner[i].Nobody? {
      assert SlotOk(w', i);
    }
    UsedIsHeld(w'.c.slots, w'.owner);
  }

  // ---------------------------------------------------------------- where it would fail

  /** Freeing slot i by its tag gives slot i back exactly when no slot before it is live under the same
      tag: that is what the counter coming round to a live tag would break. */
  lemma FreesOwnIff(slots: seq<Slot>, i: nat, tag: nat)
    requires i < |slots| && Live(slots[i], tag)
    ensures FreeTag(slots, tag) == slots[i := slots[i].(inUse := false)]
            <==> forall k :: 0 <= k < i ==> !Live(slots[k], tag)
  {
    var f := FindTag(slots, tag);
    var r := FreeTag(slots, tag);
    assert f < |slots| && !r[f].inUse && slots[f].inUse;
  }
}
