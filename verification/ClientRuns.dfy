/**
 * The client under concurrency. Any number of threads issue requests; each holds the client's lock
 * except while it waits for its reply, sleeps between retries, or waits for an Rflush. A step is
 * what one thread, or the transport's receive callback, does while it holds the lock.
 */
module ClientRuns {
  import opened Bytes
  import opened Traces
  import opened Client

  datatype Kind = Version | Auth | Attach | Walk(names: nat) | Clunk | Remove | Other

  /** A request in flight. `tag` is what alloc_tag handed out and what is freed at the end; `wire` is
      what the slot and the frame carry; `from` is what had been received when it began. */
  datatype Job = Job(kind: Kind, fid: nat, slot: nat, tag: nat, wire: nat, left: nat, frame: seq<byte>,
                     from: Trace<seq<byte>>)

  datatype Result = Nothing | NoMemory | BuildFailed | SendFailed(job: Job) | TimedOut(job: Job)
    | Refused(job: Job, fault: Fault) | Answered(job: Job, rx: seq<byte>)

  datatype Pc =
    | Idle(result: Result)
    | Waiting(job: Job)
    | Sleeping(job: Job)
    | Flushing(job: Job, fslot: nat, ftag: nat)

  /** Whose slot it is: a record kept for the proofs, which no step looks at. A leaked slot is in use but
      nobody's. */
  datatype Owner = Nobody | Main(t: nat) | Flush(t: nat) | Leaked

  datatype World = World(c: Client, threads: seq<Pc>, got: Trace<seq<byte>>, owner: seq<Owner>, leaks: nat)

  datatype Action =
    | Begin(t: nat, kind: Kind, fid: nat, retries: nat, built: bool, frame: seq<byte>, sent: bool)
    | Receive(frame: seq<byte>)
    | Wake(t: nat)
    | Timeout(t: nat, flushed: bool)
    | Resume(t: nat, sent: bool)
    | FlushEnd(t: nat)

  predicate TakesFid(k: Kind) { k.Auth? || k.Attach? || k.Walk? }

  predicate DropsFid(k: Kind) { k.Clunk? || k.Remove? }

  /** The reply says that everything asked for was done. A walk must have walked every name. */
  predicate Success(r: Result) {
    r.Answered? && (r.job.kind.Walk? ==> |r.rx| >= 9 && U16(r.rx, 7) >= r.job.kind.names)
  }

  // ---------------------------------------------------------------- steps

  /** A version call that brought an acceptable answer. */
  predicate Agrees(job: Job, r: Result) { job.kind.Version? && r.Answered? && VersionOk(r.rx) }

  function Settle(c: Client, job: Job, r: Result): Client {
    var c1 := if DropsFid(job.kind) || (TakesFid(job.kind) && !Success(r)) then FreeFid(c, job.fid) else c;
    var c2 := if Agrees(job, r) then c1.(msize := AgreedMsize(c1, U32(r.rx, 7))) else c1;
    c2.(slots := FreeTag(c2.slots, job.tag))
  }

  /** The call that holds `slot` frees by tag: its slot is no longer its own, and the slot found is free. */
  function Vacated(owner: seq<Owner>, slots: seq<Slot>, slot: nat, tag: nat): (o: seq<Owner>)
    requires slot < |owner| == |slots|
    ensures |o| == |owner|
  {
    var f := FindTag(slots, tag);
    if f == |slots| then owner[slot := Leaked] else owner[slot := Leaked][f := Nobody]
  }

  /** A version call overwrites its slot's tag, so unless that was NOTAG already it frees nothing. */
  predicate Leaks(job: Job) { job.kind.Version? && job.tag != NOTAG }

  /** The operation returns. */
  function End(w: World, t: nat, job: Job, r: Result): World
    requires t < |w.threads| && job.slot < |w.owner| == |w.c.slots|
  {
    w.(c := Settle(w.c, job, r), threads := w.threads[t := Idle(r)],
       owner := Vacated(w.owner, w.c.slots, job.slot, job.tag),
       leaks := if Leaks(job) then w.leaks + 1 else w.leaks)
  }

  function Outcome(job: Job, s: Slot): Result {
    if s.fault.NoFault? then Answered(job, s.rx) else Refused(job, s.fault)
  }

  predicate InFlight(p: Pc) { !p.Idle? }

  /** The tags a call frees by when it returns, and the tags its slots carry. */
  function Frees(p: Pc): set<nat> {
    if p.Idle? then {} else if p.Flushing? then {p.job.tag, p.ftag} else {p.job.tag}
  }

  function Carries(p: Pc): set<nat> {
    if p.Idle? then {} else if p.Flushing? then {p.job.wire, p.ftag} else {p.job.wire}
  }

  /** The counter has not come round to a tag that a call in flight still uses. */
  predicate FreshTag(w: World) {
    forall t :: 0 <= t < |w.threads| ==> w.c.nextTag !in Frees(w.threads[t]) && w.c.nextTag !in Carries(w.threads[t])
  }

  /** No call in flight was handed NOTAG for its own. */
  predicate NotagSpare(w: World) { forall t :: 0 <= t < |w.threads| ==> NOTAG !in Frees(w.threads[t]) }

  predicate SlotAt(w: World, i: nat) { i < |w.c.slots| == |w.owner| }

  predicate Enabled(w: World, a: Action) {
    match a
    case Begin(t, kind, _, _, _, _, _) =>
      && t < |w.threads| && w.threads[t].Idle? && |w.owner| == |w.c.slots|
      && FreshTag(w) && (kind.Version? ==> NotagSpare(w))
    case Receive(_) => true
    case Wake(t) => t < |w.threads| && w.threads[t].Waiting? && SlotAt(w, w.threads[t].job.slot)
                    && w.c.slots[w.threads[t].job.slot].complete
    case Timeout(t, _) => t < |w.threads| && w.threads[t].Waiting? && SlotAt(w, w.threads[t].job.slot)
                          && (w.threads[t].job.left == 0 ==> FreshTag(w))
    case Resume(t, _) => t < |w.threads| && w.threads[t].Sleeping? && SlotAt(w, w.threads[t].job.slot)
    case FlushEnd(t) => t < |w.threads| && w.threads[t].Flushing? && SlotAt(w, w.threads[t].job.slot)
                        && SlotAt(w, w.threads[t].fslot)
  }

  /** A request whose tag, fid and frame are ready is sent. */
  function Launch(w: World, t: nat, job: Job, sent: bool): World
    requires t < |w.threads| && job.slot < |w.owner| == |w.c.slots|
  {
    if sent then w.(threads := w.threads[t := Waiting(job)]) else End(w, t, job, SendFailed(job))
  }

  function Apply(w: World, a: Action): World
    requires Enabled(w, a)
  {
    match a
    case Begin(t, kind, fid, retries, built, frame, sent) => DoBegin(w, t, kind, fid, retries, built, frame, sent)
    case Receive(frame) => w.(c := w.c.(slots := Delivered(w.c.slots, w.c.bufSize, frame)), got := Then(w.got, frame))
    case Wake(t) =>
      var job := w.threads[t].job;
      End(w, t, job, Outcome(job, w.c.slots[job.slot]))
    case Timeout(t, flushed) => DoTimeout(w, t, flushed)
    case Resume(t, sent) =>
      var job := w.threads[t].job;
      var s := w.c.slots[job.slot];
      if s.complete then End(w, t, job, Outcome(job, s))
      else Launch(w.(c := w.c.(slots := w.c.slots[job.slot := s.(fault := NoFault)])), t, job, sent)
    case FlushEnd(t) =>
      var p := w.threads[t];
      End(LetGo(w, p.fslot, p.ftag), t, p.job, TimedOut(p.job))
  }

  /** The tag taken for slot i is freed again. */
  function LetGo(w: World, i: nat, tag: nat): World
    requires i < |w.owner| == |w.c.slots|
  {
    w.(c := w.c.(slots := FreeTag(w.c.slots, tag)), owner := Vacated(w.owner, w.c.slots, i, tag))
  }

  function DoBegin(w: World, t: nat, kind: Kind, fid: nat, retries: nat, built: bool, frame: seq<byte>,
                   sent: bool): World
    requires t < |w.threads| && |w.owner| == |w.c.slots|
  {
    var i, tag := FreeAt(w.c.slots), w.c.nextTag;
    if i == |w.c.slots| then w.(threads := w.threads[t := Idle(NoMemory)])
    else if TakesFid(kind) && FreeFidAt(w.c.fids) == |w.c.fids| then
      LetGo(w.(c := AllocTag(w.c), threads := w.threads[t := Idle(NoMemory)]), i, tag)
    else
      var c1 := if TakesFid(kind) then AllocFid(AllocTag(w.c)) else AllocTag(w.c);
      var f := if TakesFid(kind) then w.c.nextFid else fid;
      if !built then
        var c2 := if TakesFid(kind) then FreeFid(c1, f) else c1;
        LetGo(w.(c := c2, threads := w.threads[t := Idle(BuildFailed)]), i, tag)
      else
        var wire := if kind.Version? then NOTAG else tag;
        var c2 := c1.(slots := c1.slots[i := c1.slots[i].(tag := wire)]);
        Launch(w.(c := c2, owner := w.owner[i := Main(t)]), t, Job(kind, f, i, tag, wire, retries, frame, w.got), sent)
  }

  function DoTimeout(w: World, t: nat, flushed: bool): World
    requires t < |w.threads| && w.threads[t].Waiting? && w.threads[t].job.slot < |w.owner| == |w.c.slots|
  {
    var job := w.threads[t].job;
    if job.left > 0 then w.(threads := w.threads[t := Sleeping(job.(left := job.left - 1))])
    else
      var i, ftag := FreeAt(w.c.slots), w.c.nextTag;
      if i == |w.c.slots| then End(w, t, job, TimedOut(job))
      else
        var w1 := w.(c := AllocTag(w.c), owner := w.owner[i := Flush(t)]);
        if flushed then w1.(threads := w.threads[t := Flushing(job, i, ftag)])
        else End(LetGo(w1, i, ftag), t, job, TimedOut(job))
  }

  predicate Feasible(w: World, acts: seq<Action>)
    decreases |acts|
  {
    |acts| == 0 || (Enabled(w, acts[0]) && Feasible(Apply(w, acts[0]), acts[1..]))
  }

  function Run(w: World, acts: seq<Action>): World
    requires Feasible(w, acts)
    decreases |acts|
  {
    if |acts| == 0 then w else Run(Apply(w, acts[0]), acts[1..])
  }

  predicate Boot(w: World) {
    && (forall i :: 0 <= i < |w.c.slots| ==> !w.c.slots[i].inUse)
    && (forall i :: 0 <= i < |w.c.fids| ==> !w.c.fids[i].inUse)
    && (forall t :: 0 <= t < |w.threads| ==> w.threads[t] == Idle(Nothing))
    && |w.owner| == |w.c.slots| && (forall i :: 0 <= i < |w.owner| ==> w.owner[i].Nobody?)
    && w.got.Start? && w.leaks == 0
  }

  // ---------------------------------------------------------------- what every step keeps

  /** f was received, and not before `from`. */
  predicate ReceivedSince(from: Trace<seq<byte>>, got: Trace<seq<byte>>, f: seq<byte>) {
    got.Then? && ((got.last == f && Reaches(from, got.before)) || ReceivedSince(from, got.before, f))
  }

  predicate OwnReply(job: Job, got: Trace<seq<byte>>, rx: seq<byte>) {
    |rx| >= 7 && U16(rx, 5) == job.wire && rx[4] != RERROR && ReceivedSince(job.from, got, rx)
  }

  predicate JobOk(w: World, t: nat, job: Job) {
    && SlotAt(w, job.slot) && w.owner[job.slot] == Main(t) && w.c.slots[job.slot].tag == job.wire
    && job.wire == (if job.kind.Version? then NOTAG else job.tag)
    && Reaches(job.from, w.got)
    && (w.c.slots[job.slot].complete && w.c.slots[job.slot].fault.NoFault?
        ==> OwnReply(job, w.got, w.c.slots[job.slot].rx))
  }

  predicate ThreadOk(w: World, t: nat)
    requires t < |w.threads|
  {
    var p := w.threads[t];
    && (p.Idle? ==> (p.result.Answered? ==> OwnReply(p.result.job, w.got, p.result.rx)))
    && (!p.Idle? ==> JobOk(w, t, p.job))
    && (p.Flushing? ==> SlotAt(w, p.fslot) && w.owner[p.fslot] == Flush(t) && w.c.slots[p.fslot].tag == p.ftag
                        && p.ftag != p.job.tag && p.ftag != p.job.wire)
  }

  predicate SlotOk(w: World, i: nat)
    requires SlotAt(w, i)
  {
    && w.c.slots[i].inUse == !w.owner[i].Nobody?
    && (w.owner[i].Main? ==> w.owner[i].t < |w.threads| && InFlight(w.threads[w.owner[i].t])
                             && w.threads[w.owner[i].t].job.slot == i)
    && (w.owner[i].Flush? ==> w.owner[i].t < |w.threads| && w.threads[w.owner[i].t].Flushing?
                              && w.threads[w.owner[i].t].fslot == i)
    && (w.owner[i].Leaked? ==> w.c.slots[i].tag == NOTAG)
  }

  /** What one call frees by, no other frees by or carries. */
  predicate Apart(ps: seq<Pc>) {
    forall s, t :: 0 <= s < |ps| && 0 <= t < |ps| && s != t
      ==> Frees(ps[s]) !! Frees(ps[t]) && Frees(ps[s]) !! Carries(ps[t])
  }

  predicate WorldOk(w: World) {
    && |w.owner| == |w.c.slots|
    && (forall t :: 0 <= t < |w.threads| ==> ThreadOk(w, t))
    && (forall i :: 0 <= i < |w.owner| ==> SlotOk(w, i))
    && Apart(w.threads)
  }

  lemma BootOk(w: World)
    requires Boot(w)
    ensures WorldOk(w)
  {
  }

  // ---------------------------------------------------------------- freeing by tag is exact

  /** A tag that thread t frees by is live in no slot but the one t took it for, and leaked ones. */
  lemma OnlyMine(w: World, t: nat, k: nat, tag: nat)
    requires WorldOk(w) && t < |w.threads| && tag in Frees(w.threads[t]) && k < |w.c.slots| && Live(w.c.slots[k], tag)
    ensures (w.owner[k].Leaked? && tag == NOTAG)
            || w.owner[k] == if tag == w.threads[t].job.tag then Main(t) else Flush(t)
    ensures tag == w.threads[t].job.tag ==> !Leaks(w.threads[t].job)
  {
    assert ThreadOk(w, t) && SlotOk(w, k);
    if w.owner[k].Main? || w.owner[k].Flush? {
      var s := w.owner[k].t;
      assert ThreadOk(w, s) && tag in Carries(w.threads[s]);
    }
  }

  /** Freeing by tag finds the slot the request took or, under NOTAG, a leaked slot before it; after a
      version call it finds nothing. */
  lemma FreeExact(w: World, t: nat)
    requires WorldOk(w) && t < |w.threads| && InFlight(w.threads[t])
    ensures var job := w.threads[t].job; var f := FindTag(w.c.slots, job.tag);
            && SlotAt(w, job.slot) && w.owner[job.slot] == Main(t)
            && (Leaks(job) ==> f == |w.c.slots|)
            && (!Leaks(job) ==> f <= job.slot && (f != job.slot ==> job.tag == NOTAG && w.owner[f].Leaked?))
  {
    var job, slots := w.threads[t].job, w.c.slots;
    var f := FindTag(slots, job.tag);
    assert ThreadOk(w, t) && SlotOk(w, job.slot);
    if f < |slots| {
      OnlyMine(w, t, f, job.tag);
      assert SlotOk(w, f);
    }
  }

  lemma FlushFreeExact(w: World, t: nat)
    requires WorldOk(w) && t < |w.threads| && w.threads[t].Flushing?
    ensures var p := w.threads[t]; var f := FindTag(w.c.slots, p.ftag);
            && SlotAt(w, p.fslot) && w.owner[p.fslot] == Flush(t)
            && f <= p.fslot && (f != p.fslot ==> p.ftag == NOTAG && w.owner[f].Leaked?)
  {
    var p, slots := w.threads[t], w.c.slots;
    var f := FindTag(slots, p.ftag);
    assert ThreadOk(w, t) && SlotOk(w, p.fslot);
    OnlyMine(w, t, f, p.ftag);
    assert SlotOk(w, f);
  }

  // ---------------------------------------------------------------- every step keeps the invariant

  lemma SettleSlots(c: Client, job: Job, r: Result)
    ensures Settle(c, job, r).slots == FreeTag(c.slots, job.tag)
  {
  }

  /** A thread goes idle, and slot f, its own or a leaked one, is free; if it is not its own, that one is
      leaked now. */
  lemma GaveUp(w: World, t: nat, r: Result, f: nat, w': World)
    requires WorldOk(w) && t < |w.threads| && (w.threads[t].Waiting? || w.threads[t].Sleeping?)
    requires r.Answered? ==> OwnReply(r.job, w.got, r.rx)
    requires var job := w.threads[t].job;
             && SlotAt(w, job.slot) && w.owner[job.slot] == Main(t) && f <= |w.c.slots|
             && (f == |w.c.slots| || f == job.slot || w.owner[f].Leaked?) && (f != job.slot ==> job.wire == NOTAG)
             && w'.c.slots == (if f == |w.c.slots| then w.c.slots else w.c.slots[f := w.c.slots[f].(inUse := false)])
             && w'.owner == (if f == |w.c.slots| then w.owner[job.slot := Leaked]
                             else w.owner[job.slot := Leaked][f := Nobody])
             && w'.threads == w.threads[t := Idle(r)] && w'.got == w.got
    ensures WorldOk(w')
  {
    assert ThreadOk(w, t);
    forall s | 0 <= s < |w'.threads| ensures ThreadOk(w', s) {
      assert ThreadOk(w, s);
    }
    forall i | 0 <= i < |w'.owner| ensures SlotOk(w', i) {
      assert SlotOk(w, i);
    }
  }

  lemma EndOk(w: World, t: nat, r: Result)
    requires WorldOk(w) && t < |w.threads| && (w.threads[t].Waiting? || w.threads[t].Sleeping?)
    requires r.Answered? ==> OwnReply(r.job, w.got, r.rx)
    ensures w.threads[t].job.slot < |w.owner| && WorldOk(End(w, t, w.threads[t].job, r))
  {
    var job := w.threads[t].job;
    FreeExact(w, t);
    assert ThreadOk(w, t);
    SettleSlots(w.c, job, r);
    GaveUp(w, t, r, FindTag(w.c.slots, job.tag), End(w, t, job, r));
  }

  /** The slots of every other call in flight, with their bytes, stay as they were. */
  lemma EndLeavesOthers(w: World, t: nat, r: Result, s: nat)
    requires WorldOk(w) && t < |w.threads| && InFlight(w.threads[t]) && s < |w.threads| && s != t
             && InFlight(w.threads[s])
    ensures SlotAt(w, w.threads[t].job.slot) && var p, w' := w.threads[s], End(w, t, w.threads[t].job, r);
            && |w'.c.slots| == |w.c.slots| && SlotAt(w, p.job.slot) && w'.threads[s] == p
            && w'.c.slots[p.job.slot] == w.c.slots[p.job.slot] && w'.owner[p.job.slot] == Main(s)
            && (p.Flushing? ==> SlotAt(w, p.fslot) && w'.c.slots[p.fslot] == w.c.slots[p.fslot]
                                && w'.owner[p.fslot] == Flush(s))
  {
    FreeExact(w, t);
    assert ThreadOk(w, s);
    SettleSlots(w.c, w.threads[t].job, r);
  }

  lemma ReplyIsOwn(w: World, t: nat)
    requires WorldOk(w) && t < |w.threads| && InFlight(w.threads[t])
    ensures var job := w.threads[t].job;
            job.slot < |w.c.slots| && (w.c.slots[job.slot].complete && Outcome(job, w.c.slots[job.slot]).Answered?
              ==> OwnReply(job, w.got, w.c.slots[job.slot].rx))
  {
    assert ThreadOk(w, t);
  }

  lemma ReceiveOk(w: World, frame: seq<byte>)
    requires WorldOk(w)
    ensures WorldOk(Apply(w, Receive(frame)))
  {
    var w' := Apply(w, Receive(frame));
    forall s | 0 <= s < |w'.threads| ensures ThreadOk(w', s) {
      assert ThreadOk(w, s);
    }
    forall i | 0 <= i < |w'.owner| ensures SlotOk(w', i) {
      assert SlotOk(w, i);
    }
  }

  /** A free slot was taken and, at once, slot f was freed: that one, or a leaked one for it. */
  lemma FreeSlotTouched(w: World, w': World, i: nat, f: nat, t: nat, r: Result)
    requires WorldOk(w) && i < |w.c.slots| && w.owner[i].Nobody? && t < |w.threads| && w.threads[t].Idle?
             && !r.Answered?
    requires f < |w.c.slots| && (f == i || (w.owner[f].Leaked? && w.c.nextTag == NOTAG))
    requires |w'.c.slots| == |w.c.slots| && !w'.c.slots[f].inUse
    requires w'.c.slots == w.c.slots[i := Taken(w.c.slots[i], w.c.nextTag)][f := w'.c.slots[f]]
    requires w' == w.(c := w'.c, threads := w.threads[t := Idle(r)], owner := w.owner[i := Leaked][f := Nobody])
    ensures WorldOk(w')
  {
    forall s | 0 <= s < |w'.threads| ensures ThreadOk(w', s) {
      assert ThreadOk(w, s);
    }
    forall k | 0 <= k < |w'.owner| ensures SlotOk(w', k) {
      assert SlotOk(w, k);
    }
  }

  /** A fresh tag is live in no slot but leaked ones. */
  lemma FreshNotLive(w: World, k: nat)
    requires WorldOk(w) && FreshTag(w) && k < |w.c.slots|
    ensures Live(w.c.slots[k], w.c.nextTag) ==> w.owner[k].Leaked? && w.c.nextTag == NOTAG
  {
    assert SlotOk(w, k);
    if w.owner[k].Main? || w.owner[k].Flush? {
      assert ThreadOk(w, w.owner[k].t);
    }
  }

  /** A fresh tag freed at once finds its slot or, under NOTAG, a leaked slot before it. */
  lemma FreshFreed(w: World)
    requires WorldOk(w) && FreshTag(w) && FreeAt(w.c.slots) < |w.c.slots|
    ensures var i := FreeAt(w.c.slots); var f := FindTag(AllocTag(w.c).slots, w.c.nextTag);
            w.owner[i].Nobody? && f <= i && (f != i ==> w.c.nextTag == NOTAG && w.owner[f].Leaked?)
  {
    var i, slots := FreeAt(w.c.slots), AllocTag(w.c).slots;
    assert SlotOk(w, i) && Live(slots[i], w.c.nextTag);
    var f := FindTag(slots, w.c.nextTag);
    if f != i {
      FreshNotLive(w, f);
    }
  }

  /** A thread that takes a free slot with a fresh tag holds it from then on. */
  lemma TookSlot(w: World, t: nat, i: nat, job: Job, w': World)
    requires WorldOk(w) && FreshTag(w) && t < |w.threads| && w.threads[t].Idle? && i < |w.c.slots| && w.owner[i].Nobody?
    requires job.slot == i && job.tag == w.c.nextTag && job.from == w.got
    requires job.wire == (if job.kind.Version? then NOTAG else job.tag) && (job.kind.Version? ==> NotagSpare(w))
    requires w'.c.slots == w.c.slots[i := Taken(w.c.slots[i], job.wire)]
    requires w' == w.(c := w'.c, owner := w.owner[i := Main(t)], threads := w.threads[t := Waiting(job)])
    ensures WorldOk(w')
  {
    forall s | 0 <= s < |w'.threads| ensures ThreadOk(w', s) {
      assert ThreadOk(w, s);
    }
    forall k | 0 <= k < |w'.owner| ensures SlotOk(w', k) {
      assert SlotOk(w, k);
    }
  }

  lemma BeginOk(w: World, t: nat, kind: Kind, fid: nat, retries: nat, built: bool, frame: seq<byte>, sent: bool)
    requires WorldOk(w) && t < |w.threads| && w.threads[t].Idle? && FreshTag(w) && (kind.Version? ==> NotagSpare(w))
    ensures WorldOk(DoBegin(w, t, kind, fid, retries, built, frame, sent))
  {
    var w' := DoBegin(w, t, kind, fid, retries, built, frame, sent);
    var i := FreeAt(w.c.slots);
    if i == |w.c.slots| {
      assert forall s :: 0 <= s < |w.threads| ==> ThreadOk(w, s);
      IdleAgain(w, t, NoMemory);
    } else {
      FreshFreed(w);
      var noFid := TakesFid(kind) && FreeFidAt(w.c.fids) == |w.c.fids|;
      if noFid || !built {
        FreeSlotTouched(w, w', i, FindTag(AllocTag(w.c).slots, w.c.nextTag), t, w'.threads[t].result);
      } else {
        BeginLaunches(w, t, kind, fid, retries, frame, sent);
      }
    }
  }

  lemma IdleAgain(w: World, t: nat, r: Result)
    requires WorldOk(w) && t < |w.threads| && w.threads[t].Idle? && !r.Answered?
    ensures WorldOk(w.(threads := w.threads[t := Idle(r)]))
  {
    var w' := w.(threads := w.threads[t := Idle(r)]);
    forall s | 0 <= s < |w'.threads| ensures ThreadOk(w', s) {
      assert ThreadOk(w, s);
    }
    forall k | 0 <= k < |w'.owner| ensures SlotOk(w', k) {
      assert SlotOk(w, k);
    }
  }

  lemma BeginLaunches(w: World, t: nat, kind: Kind, fid: nat, retries: nat, frame: seq<byte>, sent: bool)
    requires WorldOk(w) && t < |w.threads| && w.threads[t].Idle? && FreshTag(w) && (kind.Version? ==> NotagSpare(w))
    requires FreeAt(w.c.slots) < |w.c.slots| && w.owner[FreeAt(w.c.slots)].Nobody?
    requires !(TakesFid(kind) && FreeFidAt(w.c.fids) == |w.c.fids|)
    ensures WorldOk(DoBegin(w, t, kind, fid, retries, true, frame, sent))
  {
    var i, tag := FreeAt(w.c.slots), w.c.nextTag;
    var up := DoBegin(w, t, kind, fid, retries, true, frame, true);
    var job := up.threads[t].job;
    TookSlot(w, t, i, job, up);
    if !sent {
      EndOk(up, t, SendFailed(job));
      var w1 := up.(threads := w.threads);
      assert w1.threads[t := Idle(SendFailed(job))] == up.threads[t := Idle(SendFailed(job))];
      assert DoBegin(w, t, kind, fid, retries, true, frame, false) == End(w1, t, job, SendFailed(job))
             == End(up, t, job, SendFailed(job));
    }
  }

  /** The flush is over: its thread is as it was before it. */
  lemma FlushOver(w: World, t: nat)
    requires WorldOk(w) && t < |w.threads| && w.threads[t].Flushing?
    ensures var p := w.threads[t];
            SlotAt(w, p.fslot) && SlotAt(w, p.job.slot)
            && WorldOk(LetGo(w, p.fslot, p.ftag).(threads := w.threads[t := Waiting(p.job)]))
  {
    var p := w.threads[t];
    assert ThreadOk(w, t);
    FlushFreeExact(w, t);
    var w1 := LetGo(w, p.fslot, p.ftag).(threads := w.threads[t := Waiting(p.job)]);
    forall s | 0 <= s < |w1.threads| ensures ThreadOk(w1, s) {
      assert ThreadOk(w, s);
    }
    forall k | 0 <= k < |w1.owner| ensures SlotOk(w1, k) {
      assert SlotOk(w, k);
    }
  }

  lemma FlushEndOk(w: World, t: nat)
    requires WorldOk(w) && t < |w.threads| && w.threads[t].Flushing?
    ensures var p := w.threads[t];
            SlotAt(w, p.fslot) && SlotAt(w, p.job.slot)
            && WorldOk(End(LetGo(w, p.fslot, p.ftag), t, p.job, TimedOut(p.job)))
  {
    var p := w.threads[t];
    FlushOver(w, t);
    var w1 := LetGo(w, p.fslot, p.ftag).(threads := w.threads[t := Waiting(p.job)]);
    EndOk(w1, t, TimedOut(p.job));
    assert w1.threads[t := Idle(TimedOut(p.job))] == w.threads[t := Idle(TimedOut(p.job))];
  }

  lemma TookFlush(w: World, t: nat, i: nat, w': World)
    requires WorldOk(w) && FreshTag(w) && t < |w.threads| && w.threads[t].Waiting? && i < |w.c.slots|
             && w.owner[i].Nobody?
    requires w'.c.slots == w.c.slots[i := Taken(w.c.slots[i], w.c.nextTag)]
    requires w' == w.(c := w'.c, owner := w.owner[i := Flush(t)],
                      threads := w.threads[t := Flushing(w.threads[t].job, i, w.c.nextTag)])
    ensures WorldOk(w')
  {
    assert ThreadOk(w, t);
    forall s | 0 <= s < |w'.threads| ensures ThreadOk(w', s) {
      assert ThreadOk(w, s);
    }
    forall k | 0 <= k < |w'.owner| ensures SlotOk(w', k) {
      assert SlotOk(w, k);
    }
  }

  lemma SameJobOk(w: World, t: nat, p: Pc)
    requires WorldOk(w) && t < |w.threads| && (w.threads[t].Waiting? || w.threads[t].Sleeping?)
    requires p.Waiting? || p.Sleeping?
    requires p.job == w.threads[t].job.(left := p.job.left)
    ensures WorldOk(w.(threads := w.threads[t := p]))
  {
    var w' := w.(threads := w.threads[t := p]);
    forall s | 0 <= s < |w'.threads| ensures ThreadOk(w', s) {
      assert ThreadOk(w, s);
    }
    forall k | 0 <= k < |w'.owner| ensures SlotOk(w', k) {
      assert SlotOk(w, k);
    }
  }

  lemma TimeoutOk(w: World, t: nat, flushed: bool)
    requires WorldOk(w) && t < |w.threads| && w.threads[t].Waiting? && (w.threads[t].job.left == 0 ==> FreshTag(w))
    ensures w.threads[t].job.slot < |w.owner| && WorldOk(DoTimeout(w, t, flushed))
  {
    assert ThreadOk(w, t);
    var job := w.threads[t].job;
    var i := FreeAt(w.c.slots);
    if job.left > 0 {
      SameJobOk(w, t, Sleeping(job.(left := job.left - 1)));
    } else if i == |w.c.slots| {
      EndOk(w, t, TimedOut(job));
    } else {
      assert SlotOk(w, i);
      var up := DoTimeout(w, t, true);
      TookFlush(w, t, i, up);
      if !flushed {
        FlushEndOk(up, t);
        var w1 := up.(threads := w.threads);
        assert w1.threads[t := Idle(TimedOut(job))] == up.threads[t := Idle(TimedOut(job))];
      }
    }
  }

  lemma ResumeOk(w: World, t: nat, sent: bool)
    requires WorldOk(w) && t < |w.threads| && w.threads[t].Sleeping? && Enabled(w, Resume(t, sent))
    ensures WorldOk(Apply(w, Resume(t, sent)))
  {
    var job := w.threads[t].job;
    var s := w.c.slots[job.slot];
    ReplyIsOwn(w, t);
    if s.complete {
      EndOk(w, t, Outcome(job, s));
    } else {
      var w0 := w.(c := w.c.(slots := w.c.slots[job.slot := s.(fault := NoFault)]));
      forall r | 0 <= r < |w0.threads| ensures ThreadOk(w0, r) {
        assert ThreadOk(w, r);
      }
      forall k | 0 <= k < |w0.owner| ensures SlotOk(w0, k) {
        assert SlotOk(w, k);
      }
      assert WorldOk(w0);
      if sent {
        SameJobOk(w0, t, Waiting(job));
      } else {
        EndOk(w0, t, SendFailed(job));
      }
    }
  }

  lemma StepOk(w: World, a: Action)
    requires WorldOk(w) && Enabled(w, a)
    ensures WorldOk(Apply(w, a))
  {
    match a
    case Begin(t, kind, fid, retries, built, frame, sent) => BeginOk(w, t, kind, fid, retries, built, frame, sent);
    case Receive(frame) => ReceiveOk(w, frame);
    case Wake(t) =>
      ReplyIsOwn(w, t);
      EndOk(w, t, Outcome(w.threads[t].job, w.c.slots[w.threads[t].job.slot]));
    case Timeout(t, flushed) => TimeoutOk(w, t, flushed);
    case Resume(t, sent) => ResumeOk(w, t, sent);
    case FlushEnd(t) => FlushEndOk(w, t);
  }

  lemma {:induction false} RunOk(w: World, acts: seq<Action>)
    requires WorldOk(w) && Feasible(w, acts)
    ensures WorldOk(Run(w, acts))
    decreases |acts|
  {
    if |acts| > 0 {
      StepOk(w, acts[0]);
      RunOk(Apply(w, acts[0]), acts[1..]);
    }
  }
}
