/** What each step of a client thread changes, as far as the other threads can see. */
module ClientShapes {
  import opened Bytes
  import opened Client
  import opened ClientRuns

  /** The request is launched: a tag, a fid if it needs one, and a built frame. */
  predicate Launches(w: World, kind: Kind, built: bool) {
    built && FreeAt(w.c.slots) < |w.c.slots| && !(TakesFid(kind) && FreeFidAt(w.c.fids) == |w.c.fids|)
  }

  function FidOf(w: World, kind: Kind, fid: nat): nat { if TakesFid(kind) then w.c.nextFid else fid }

  predicate Flushes(w: World, t: nat, flushed: bool)
    requires t < |w.threads| && w.threads[t].Waiting?
  {
    flushed && w.threads[t].job.left == 0 && FreeAt(w.c.slots) < |w.c.slots|
  }

  // ---------------------------------------------------------------- what a client step leaves alone

  /** No slot is complete that was not, and a complete one keeps its bytes. */
  predicate Quiet(a: seq<Slot>, b: seq<Slot>) {
    && |a| == |b|
    && forall k :: 0 <= k < |a| && b[k].complete ==> a[k].complete && b[k].fault == a[k].fault && b[k].rx == a[k].rx
  }

  lemma FreeQuiet(slots: seq<Slot>, tag: nat)
    ensures Quiet(slots, FreeTag(slots, tag))
  {
  }

  lemma EndShape(w: World, t: nat, job: Job, r: Result)
    requires t < |w.threads| && job.slot < |w.owner| == |w.c.slots|
    ensures var w' := End(w, t, job, r);
            w'.threads == w.threads[t := Idle(r)] && w'.c.nextTag == w.c.nextTag && Quiet(w.c.slots, w'.c.slots)
  {
    SettleSlots(w.c, job, r);
    FreeQuiet(w.c.slots, job.tag);
  }

  lemma BeginShape(w: World, t: nat, kind: Kind, fid: nat, retries: nat, built: bool, frame: seq<byte>, sent: bool)
    requires t < |w.threads| && |w.owner| == |w.c.slots| && w.c.nextTag < NOTAG
    ensures var w' := DoBegin(w, t, kind, fid, retries, built, frame, sent);
            && w.c.nextTag <= w'.c.nextTag <= w.c.nextTag + 1 && |w'.threads| == |w.threads|
            && w'.threads == w.threads[t := w'.threads[t]] && Quiet(w.c.slots, w'.c.slots)
            && (w'.threads[t].Idle? || w'.threads[t].Waiting?)
            && (w'.threads[t].Waiting? ==> Launches(w, kind, built) && sent)
            && (w'.threads[t].Waiting? ==> w'.threads[t].job == LaunchedJob(w, kind, fid, retries, frame))
            && (w'.threads[t].Waiting? ==> !w'.c.slots[FreeAt(w.c.slots)].complete)
            && (Launches(w, kind, built) ==> w'.c.nextTag == w.c.nextTag + 1)
  {
    var i, tag := FreeAt(w.c.slots), w.c.nextTag;
    if i < |w.c.slots| {
      var c1 := AllocTag(w.c);
      FreeQuiet(c1.slots, tag);
      assert Quiet(w.c.slots, c1.slots);
      if Launches(w, kind, built) {
        LaunchShape(w, t, kind, fid, retries, frame, sent);
      }
    }
  }

  function LaunchedJob(w: World, kind: Kind, fid: nat, retries: nat, frame: seq<byte>): Job {
    Job(kind, FidOf(w, kind, fid), FreeAt(w.c.slots), w.c.nextTag, if kind.Version? then NOTAG else w.c.nextTag,
        retries, frame, w.got)
  }

  lemma LaunchShape(w: World, t: nat, kind: Kind, fid: nat, retries: nat, frame: seq<byte>, sent: bool)
    requires t < |w.threads| && |w.owner| == |w.c.slots| && w.c.nextTag < NOTAG && Launches(w, kind, true)
    ensures var w' := DoBegin(w, t, kind, fid, retries, true, frame, sent);
            var job := LaunchedJob(w, kind, fid, retries, frame);
            && w'.c.nextTag == w.c.nextTag + 1 && Quiet(w.c.slots, w'.c.slots)
            && w'.threads == w.threads[t := if sent then Waiting(job) else Idle(SendFailed(job))]
            && (sent ==> !w'.c.slots[job.slot].complete)
  {
    var job := LaunchedJob(w, kind, fid, retries, frame);
    var c1 := if TakesFid(kind) then AllocFid(AllocTag(w.c)) else AllocTag(w.c);
    var c2 := c1.(slots := c1.slots[job.slot := c1.slots[job.slot].(tag := job.wire)]);
    assert Quiet(w.c.slots, c2.slots) && !c2.slots[job.slot].complete;
    var w1 := w.(c := c2, owner := w.owner[job.slot := Main(t)]);
    assert DoBegin(w, t, kind, fid, retries, true, frame, sent) == Launch(w1, t, job, sent);
    if !sent {
      EndShape(w1, t, job, SendFailed(job));
    }
  }

  lemma TimeoutShape(w: World, t: nat, flushed: bool)
    requires Enabled(w, Timeout(t, flushed)) && (w.threads[t].job.left == 0 ==> w.c.nextTag < NOTAG)
    ensures var w', job := DoTimeout(w, t, flushed), w.threads[t].job;
            && w.c.nextTag <= w'.c.nextTag <= w.c.nextTag + 1 && Quiet(w.c.slots, w'.c.slots)
            && (w'.c.nextTag > w.c.nextTag ==> job.left == 0)
            && (Flushes(w, t, flushed) ==> w'.c.nextTag == w.c.nextTag + 1)
            && w'.threads == w.threads[t :=
                 if job.left > 0 then Sleeping(job.(left := job.left - 1))
                 else if Flushes(w, t, flushed) then Flushing(job, FreeAt(w.c.slots), w.c.nextTag)
                 else Idle(TimedOut(job))]
  {
    var i, job := FreeAt(w.c.slots), w.threads[t].job;
    if job.left == 0 {
      if i == |w.c.slots| {
        EndShape(w, t, job, TimedOut(job));
      } else if !flushed {
        UnsentFlushShape(w, t);
      }
    }
  }

  /** A flush that could not be sent. */
  lemma UnsentFlushShape(w: World, t: nat)
    requires Enabled(w, Timeout(t, false)) && w.threads[t].job.left == 0 && w.c.nextTag < NOTAG
             && FreeAt(w.c.slots) < |w.c.slots|
    ensures var w' := DoTimeout(w, t, false);
            && w'.c.nextTag == w.c.nextTag + 1 && Quiet(w.c.slots, w'.c.slots)
            && w'.threads == w.threads[t := Idle(TimedOut(w.threads[t].job))]
  {
    var i, job := FreeAt(w.c.slots), w.threads[t].job;
    var w1 := w.(c := AllocTag(w.c), owner := w.owner[i := Flush(t)]);
    var w2 := LetGo(w1, i, w.c.nextTag);
    FreeQuiet(w1.c.slots, w.c.nextTag);
    EndShape(w2, t, job, TimedOut(job));
    assert Quiet(w.c.slots, w1.c.slots) && Quiet(w1.c.slots, w2.c.slots);
  }

  lemma FlushEndShape(w: World, t: nat)
    requires Enabled(w, FlushEnd(t))
    ensures var w' := Apply(w, FlushEnd(t));
            w'.threads == w.threads[t := Idle(TimedOut(w.threads[t].job))] && w'.c.nextTag == w.c.nextTag
            && Quiet(w.c.slots, w'.c.slots)
  {
    var p := w.threads[t];
    var w1 := LetGo(w, p.fslot, p.ftag);
    FreeQuiet(w.c.slots, p.ftag);
    EndShape(w1, t, p.job, TimedOut(p.job));
  }

  lemma ResumeShape(w: World, t: nat, sent: bool)
    requires Enabled(w, Resume(t, sent))
    ensures var w', job, s := Apply(w, Resume(t, sent)), w.threads[t].job, w.c.slots[w.threads[t].job.slot];
            && w'.c.nextTag == w.c.nextTag && Quiet(w.c.slots, w'.c.slots)
            && w'.threads == w.threads[t :=
                 if s.complete then Idle(Outcome(job, s)) else if sent then Waiting(job) else Idle(SendFailed(job))]
  {
    var job := w.threads[t].job;
    var s := w.c.slots[job.slot];
    if s.complete {
      EndShape(w, t, job, Outcome(job, s));
    } else {
      var w1 := w.(c := w.c.(slots := w.c.slots[job.slot := s.(fault := NoFault)]));
      assert Quiet(w.c.slots, w1.c.slots);
      if !sent {
        EndShape(w1, t, job, SendFailed(job));
      }
    }
  }
}
