/**
 * The server under concurrency. One dispatcher and any number of completing threads contend for
 * tx_buf_mutex; completers and cleanup contend for pending_lock, and cleanup sleeps on pending_cv.
 * Every acquisition and every release is a step of its own, so a run is any interleaving of them.
 */
module ServerRuns {
  import opened Bytes
  import opened Options
  import opened Traces
  import opened Session
  import opened SessionInvariant
  import opened Dispatch
  import opened ServerInvariant
  import opened SessionLog

  datatype Agent = Dispatcher | Completer(i: nat) | Cleaner

  datatype Frame = Frame(msg: seq<byte>, env: Env)

  /** Where a thread is in ninep_server_read_complete. */
  datatype Pc =
    | Ready
    | AtGate(h: Handle, data: seq<byte>)
    | InGate(h: Handle, data: seq<byte>)
    | WantTx(h: Handle, data: seq<byte>)
    | InTx(h: Handle, data: seq<byte>)
    | WantExit(h: Handle, rc: CompleteRc)
    | InExit(h: Handle, rc: CompleteRc)
    | Returned(h: Handle, rc: CompleteRc)

  /** Where ninep_server_cleanup is. */
  datatype CleanPc = Alive | WantLock | Holding | Sleeping | Awake | Passed | Cleaned

  datatype World = World(s: State, dying: bool, active: nat, pendLock: Option<Agent>, txLock: Option<Agent>,
                         disp: Option<Frame>, threads: seq<Pc>, cleaner: CleanPc)

  datatype Action =
    | DispatchEnter(frame: Frame) | DispatchLeave
    | Call(i: nat, h: Handle, data: seq<byte>)
    | GateEnter(i: nat) | GateLeave(i: nat)
    | TxEnter(i: nat) | TxLeave(i: nat)
    | ExitEnter(i: nat) | ExitLeave(i: nat)
    | CleanCall | CleanEnter | CleanTest | CleanSpurious | CleanFinish

  /** What is asked of a dispatch: an honest filesystem, and tokens not yet reused. */
  predicate FrameOk(cfg: Config, s: State, f: Frame) {
    FsHonest(cfg, s, f.msg, f.env) && s.pendGen + 1 < MOD32
  }

  /** Handles the filesystem may complete: those issued, and those the dispatch in progress issues. */
  function Known(cfg: Config, w: World): set<Handle>
    requires w.disp.Some? ==> FrameOk(cfg, w.s, w.disp.value)
  {
    if w.disp.Some? then w.s.issued + Process(cfg, w.s, w.disp.value.msg, w.disp.value.env).issued
    else w.s.issued
  }

  predicate At(w: World, i: nat) { i < |w.threads| }

  predicate Enabled(cfg: Config, w: World, a: Action) {
    match a
    case DispatchEnter(f) => w.txLock.None? && w.disp.None? && !w.cleaner.Passed? && !w.cleaner.Cleaned?
                             && FrameOk(cfg, w.s, f)
    case DispatchLeave => w.disp.Some? && FrameOk(cfg, w.s, w.disp.value)
    case Call(i, h, _) => At(w, i) && (w.threads[i].Ready? || w.threads[i].Returned?)
                          && (w.disp.Some? ==> FrameOk(cfg, w.s, w.disp.value)) && h in Known(cfg, w)
    case GateEnter(i) => At(w, i) && w.threads[i].AtGate? && w.pendLock.None?
    case GateLeave(i) => At(w, i) && w.threads[i].InGate?
    case TxEnter(i) => At(w, i) && w.threads[i].WantTx? && w.txLock.None?
    case TxLeave(i) => At(w, i) && w.threads[i].InTx?
    case ExitEnter(i) => At(w, i) && w.threads[i].WantExit? && w.pendLock.None?
    case ExitLeave(i) => At(w, i) && w.threads[i].InExit? && w.active > 0
    case CleanCall => w.cleaner.Alive?
    case CleanEnter => (w.cleaner.WantLock? || w.cleaner.Awake?) && w.pendLock.None?
    case CleanTest => w.cleaner.Holding?
    case CleanSpurious => w.cleaner.Sleeping?
    case CleanFinish => w.cleaner.Passed? && w.disp.None?
  }

  function Apply(cfg: Config, w: World, a: Action): World
    requires Enabled(cfg, w, a)
  {
    match a
    case DispatchEnter(f) => w.(txLock := Some(Dispatcher), disp := Some(f))
    case DispatchLeave => w.(s := Process(cfg, w.s, w.disp.value.msg, w.disp.value.env), txLock := None, disp := None)
    case Call(i, h, data) => w.(threads := w.threads[i := AtGate(h, data)])
    case GateEnter(i) =>
      w.(threads := w.threads[i := InGate(w.threads[i].h, w.threads[i].data)], pendLock := Some(Completer(i)))
    case GateLeave(i) =>
      var t := w.threads[i];
      if w.dying then w.(threads := w.threads[i := Returned(t.h, Stale)], pendLock := None)
      else w.(threads := w.threads[i := WantTx(t.h, t.data)], pendLock := None, active := w.active + 1)
    case TxEnter(i) =>
      w.(threads := w.threads[i := InTx(w.threads[i].h, w.threads[i].data)], txLock := Some(Completer(i)))
    case TxLeave(i) =>
      var t := w.threads[i];
      var c := Complete(cfg, w.s, t.h.slot, t.h.gen, t.data);
      w.(s := c.s, threads := w.threads[i := WantExit(t.h, c.rc)], txLock := None)
    case ExitEnter(i) =>
      w.(threads := w.threads[i := InExit(w.threads[i].h, w.threads[i].rc)], pendLock := Some(Completer(i)))
    case ExitLeave(i) =>
      w.(threads := w.threads[i := Returned(w.threads[i].h, w.threads[i].rc)], pendLock := None,
         active := w.active - 1, cleaner := if w.cleaner.Sleeping? then Awake else w.cleaner)
    case CleanCall => w.(cleaner := WantLock)
    case CleanEnter => w.(cleaner := Holding, pendLock := Some(Cleaner), dying := true)
    case CleanTest => w.(cleaner := if w.active > 0 then Sleeping else Passed, pendLock := None)
    case CleanSpurious => w.(cleaner := Awake)
    case CleanFinish => w.(cleaner := Cleaned, s := Cleanup(cfg, w.s))
  }

  predicate Feasible(cfg: Config, w: World, acts: seq<Action>)
    decreases |acts|
  {
    |acts| == 0 || (Enabled(cfg, w, acts[0]) && Feasible(cfg, Apply(cfg, w, acts[0]), acts[1..]))
  }

  function Run(cfg: Config, w: World, acts: seq<Action>): World
    requires Feasible(cfg, w, acts)
    decreases |acts|
  {
    if |acts| == 0 then w else Run(cfg, Apply(cfg, w, acts[0]), acts[1..])
  }

  function Boot(cfg: Config, threads: nat): World {
    World(Initial(cfg), false, 0, None, None, None, seq(threads, _ => Ready), Alive)
  }

  // ---------------------------------------------------------------- what only grows

  /** Replies, drops, handles and events on record stay on record. */
  predicate Grows(s: State, s': State) {
    && Reaches(s.sent, s'.sent) && Reaches(s.dropped, s'.dropped) && s.issued <= s'.issued
    && Reaches(s.x.log, s'.x.log)
  }

  lemma GrowsAgain(a: State, b: State, c: State)
    requires Grows(a, b) && Grows(b, c)
    ensures Grows(a, c)
  {
    ReachesAgain(a.sent, b.sent, c.sent);
    ReachesAgain(a.dropped, b.dropped, c.dropped);
    ReachesAgain(a.x.log, b.x.log, c.x.log);
  }

  lemma {:induction false} CancelGrows(cfg: Config, s: State, sel: Selector, i: nat)
    requires i <= |s.pend|
    ensures Grows(s, CancelFrom(cfg, s, sel, i))
    decreases |s.pend| - i
  {
    if i < |s.pend| {
      var s1 := if Selects(sel, s.pend[i]) then CancelOne(cfg, s, i) else s;
      CancelGrows(cfg, s1, sel, i + 1);
      assert Reaches(s.sent, s1.sent) && s1.x == s.x;
      GrowsAgain(s, s1, CancelFrom(cfg, s1, sel, i + 1));
    }
  }

  lemma {:induction false} DropGrows(pend: seq<PendingRead>, n: nat, dropped: Trace<nat>)
    requires n <= |pend|
    ensures Reaches(dropped, DropRids(pend, n, dropped))
  {
    if n > 0 {
      DropGrows(pend, n - 1, dropped);
    }
  }

  lemma RespondGrows(cfg: Config, s: State, s1: State, tag: nat, body: Body)
    requires Grows(s, s1) && |s1.reqs| > 0
    ensures Grows(s, Respond(cfg, s1, tag, body))
  {
    assert Reaches(s1.sent, Respond(cfg, s1, tag, body).sent);
    GrowsAgain(s, s1, Respond(cfg, s1, tag, body));
  }

  lemma ReadFileGrows(cfg: Config, s: State, e: FidEntry, tag: nat, count: nat, env: Env)
    requires |s.reqs| > 0
    ensures Grows(s, ReadFile(cfg, s, e, tag, count, env))
  {
    var called := s.x.(log := Then(s.x.log, FsRead(e.fid, FidIdentity(s.x, e))));
    OneMore(s.x.log, s.x.log, FsRead(e.fid, FidIdentity(s.x, e)));
    if !cfg.canDefer {
      RespondGrows(cfg, s, s.(x := called), tag, ReadReply(env));
    } else {
      var sel := OfFidOrTag(e.fid, tag);
      CancelKeeps(cfg, s, sel, 0);
      CancelGrows(cfg, s, sel, 0);
      var s1 := Cancel(cfg, s, sel).(x := called);
      var slot := FreeSlot(s1.pend);
      if slot == |s1.pend| {
        RespondGrows(cfg, s, s1, tag, if env.rc == DEFER then Rread([]) else ReadReply(env));
      } else if env.rc != DEFER {
        RespondGrows(cfg, s, Unpark(Park(s1, slot, tag, e.fid, count), slot), tag, ReadReply(env));
      }
    }
  }

  lemma ReadGrows(cfg: Config, s: State, msg: seq<byte>, env: Env)
    requires |msg| >= 7 && |s.reqs| > 0
    ensures Grows(s, HandleTread(cfg, s, msg, env))
  {
    if |msg| >= 23 {
      var i := FindFid(s.x.fids, U32(msg, 7));
      if i < |s.x.fids| && !s.x.fids[i].isAuth && s.x.fids[i].node != 0 && s.x.fids[i].isOpen
         && s.x.fids[i].openMode % 4 != OWRITE {
        var count, limit := U32(msg, 19), ReadLimit(cfg, s.x.msize);
        ReadFileGrows(cfg, s, s.x.fids[i], U16(msg, 5), if count > limit then limit else count, env);
      }
    }
  }

  lemma ProcessGrows(cfg: Config, s: State, msg: seq<byte>, env: Env)
    ensures Grows(s, Process(cfg, s, msg, env))
  {
    if HeaderOk(msg) {
      HandlerGrows(cfg, Receive(s, msg), Seen(msg, env), env);
    }
  }

  lemma HandlerGrows(cfg: Config, s1: State, msg: seq<byte>, env: Env)
    requires WellFormed(msg) && |s1.reqs| > 0
    ensures Grows(s1, Handle1(cfg, s1, msg, env))
  {
    var t := msg[4];
    HandlerExtends(cfg, s1, msg, env);
    if t == TREAD {
      ReadGrows(cfg, s1, msg, env);
    } else if t == TVERSION {
      DropGrows(s1.pend, |s1.pend|, s1.dropped);
    } else if t == TFLUSH {
      var sel := OfTag(U16(msg, 7));
      CancelKeeps(cfg, s1, sel, 0);
      CancelGrows(cfg, s1, sel, 0);
      RespondGrows(cfg, s1, Cancel(cfg, s1, sel), U16(msg, 5), Rflush);
    } else if t == TCLUNK {
      var fid := U32(msg, 7);
      if FindFid(s1.x.fids, fid) < |s1.x.fids| {
        CancelKeeps(cfg, s1, OfFid(fid), 0);
        CancelGrows(cfg, s1, OfFid(fid), 0);
        var s2 := Cancel(cfg, s1, OfFid(fid));
        OneMore(s1.x.log, s1.x.log, FsClunk(s1.x.fids[FindFid(s1.x.fids, fid)].node));
        RespondGrows(cfg, s1, s2.(x := ClunkFid(cfg, s2.x, fid)), U16(msg, 5), Rclunk);
      }
    }
  }

  lemma StepGrows(cfg: Config, w: World, a: Action)
    requires Enabled(cfg, w, a)
    ensures Grows(w.s, Apply(cfg, w, a).s)
  {
    if a.DispatchLeave? {
      ProcessGrows(cfg, w.s, w.disp.value.msg, w.disp.value.env);
    } else if a.CleanFinish? {
      DropGrows(w.s.pend, |w.s.pend|, w.s.dropped);
      CleanupExtends(cfg, w.s.x, |w.s.x.fids|);
    }
  }

  /** What is on record in some state of a run is on record in every later one. */
  lemma {:induction false} RunGrows(cfg: Config, w: World, acts: seq<Action>)
    requires Feasible(cfg, w, acts)
    ensures Grows(w.s, Run(cfg, w, acts).s)
    decreases |acts|
  {
    if |acts| > 0 {
      var w1 := Apply(cfg, w, acts[0]);
      StepGrows(cfg, w, acts[0]);
      RunGrows(cfg, w1, acts[1..]);
      GrowsAgain(w.s, w1.s, Run(cfg, w1, acts[1..]).s);
    }
  }

  // ---------------------------------------------------------------- the invariant of a run

  /** Past the gate and not yet out. */
  predicate Inside(t: Pc) { t.WantTx? || t.InTx? || t.WantExit? || t.InExit? }

  function InsideCount(threads: seq<Pc>): nat {
    if |threads| == 0 then 0 else One(Inside(threads[0])) + InsideCount(threads[1..])
  }

  lemma {:induction false} InsideUpdate(threads: seq<Pc>, i: nat, t: Pc)
    requires i < |threads|
    ensures InsideCount(threads[i := t]) == InsideCount(threads) - One(Inside(threads[i])) + One(Inside(t))
    ensures InsideCount(threads) >= One(Inside(threads[i]))
  {
    if i == 0 {
      assert threads[i := t][1..] == threads[1..];
    } else {
      assert threads[i := t][1..] == threads[1..][i - 1 := t];
      InsideUpdate(threads[1..], i - 1, t);
    }
  }

  /** The thread is in a call whose handle is still to be used. */
  predicate Bearing(t: Pc) { t.AtGate? || t.InGate? || t.WantTx? || t.InTx? }

  predicate HoldsPend(w: World, i: nat) requires At(w, i) { w.threads[i].InGate? || w.threads[i].InExit? }

  predicate LocksOk(w: World) {
    && (forall i :: 0 <= i < |w.threads| ==> (w.pendLock == Some(Completer(i)) <==> HoldsPend(w, i)))
    && (forall i :: 0 <= i < |w.threads| ==> (w.txLock == Some(Completer(i)) <==> w.threads[i].InTx?))
    && (w.pendLock == Some(Cleaner) <==> w.cleaner.Holding?)
    && (w.txLock == Some(Dispatcher) <==> w.disp.Some?)
    && w.txLock != Some(Cleaner) && w.pendLock != Some(Dispatcher)
    && (w.pendLock.Some? && w.pendLock.value.Completer? ==> At(w, w.pendLock.value.i))
    && (w.txLock.Some? && w.txLock.value.Completer? ==> At(w, w.txLock.value.i))
  }

  predicate CleanerOk(w: World) {
    && (w.dying <==> !w.cleaner.Alive? && !w.cleaner.WantLock?)
    && (w.cleaner.Sleeping? ==> w.active > 0)
    && (w.cleaner.Passed? || w.cleaner.Cleaned? ==> w.active == 0)
    && (w.cleaner.Cleaned? ==> w.disp.None?)
  }

  predicate HandlesKnown(cfg: Config, w: World)
    requires w.disp.Some? ==> FrameOk(cfg, w.s, w.disp.value)
  {
    forall i :: 0 <= i < |w.threads| && Bearing(w.threads[i]) ==> w.threads[i].h in Known(cfg, w)
  }

  ghost predicate WorldOk(cfg: Config, w: World) {
    && ServerOk(cfg, w.s)
    && w.active == InsideCount(w.threads)
    && LocksOk(w)
    && CleanerOk(w)
    && (w.disp.Some? ==> FrameOk(cfg, w.s, w.disp.value))
    && HandlesKnown(cfg, w)
  }

  lemma {:induction false} NoneInside(threads: seq<Pc>)
    requires forall i :: 0 <= i < |threads| ==> threads[i] == Ready
    ensures InsideCount(threads) == 0
  {
    if |threads| > 0 {
      NoneInside(threads[1..]);
    }
  }

  lemma BootOk(cfg: Config, n: nat)
    requires ConfigOk(cfg)
    ensures WorldOk(cfg, Boot(cfg, n))
  {
    InitialOk(cfg);
    NoneInside(Boot(cfg, n).threads);
  }

  predicate OfThread(a: Action) {
    a.Call? || a.GateEnter? || a.GateLeave? || a.TxEnter? || a.TxLeave? || a.ExitEnter? || a.ExitLeave?
  }

  /** A thread enters only a free lock and gives back only the lock it holds. */
  lemma ThreadKeepsLocks(cfg: Config, w: World, a: Action)
    requires LocksOk(w) && OfThread(a) && Enabled(cfg, w, a)
    ensures LocksOk(Apply(cfg, w, a))
  {
    var w' := Apply(cfg, w, a);
    assert At(w, a.i) && w'.threads == w.threads[a.i := w'.threads[a.i]];
    assert w.pendLock == Some(Completer(a.i)) <==> HoldsPend(w, a.i);
    assert w.txLock == Some(Completer(a.i)) <==> w.threads[a.i].InTx?;
  }

  lemma ThreadKeepsCount(cfg: Config, w: World, a: Action)
    requires w.active == InsideCount(w.threads) && CleanerOk(w) && OfThread(a) && Enabled(cfg, w, a)
    ensures var w' := Apply(cfg, w, a);
            w'.active == InsideCount(w'.threads) && CleanerOk(w')
  {
    InsideUpdate(w.threads, a.i, Apply(cfg, w, a).threads[a.i]);
  }

  lemma ThreadKeepsHandles(cfg: Config, w: World, a: Action)
    requires LocksOk(w) && (w.disp.Some? ==> FrameOk(cfg, w.s, w.disp.value)) && HandlesKnown(cfg, w)
    requires OfThread(a) && Enabled(cfg, w, a)
    ensures var w' := Apply(cfg, w, a);
            w'.disp == w.disp && (w'.disp.Some? ==> w'.s == w.s) && HandlesKnown(cfg, w')
  {
    var w' := Apply(cfg, w, a);
    assert Known(cfg, w') == Known(cfg, w);
    forall i | 0 <= i < |w'.threads| && Bearing(w'.threads[i]) ensures w'.threads[i].h in Known(cfg, w') {
      assert i != a.i ==> w'.threads[i] == w.threads[i];
    }
  }

  lemma ThreadStepOk(cfg: Config, w: World, a: Action)
    requires ConfigOk(cfg) && WorldOk(cfg, w) && OfThread(a) && Enabled(cfg, w, a)
    ensures WorldOk(cfg, Apply(cfg, w, a))
  {
    ThreadKeepsLocks(cfg, w, a);
    ThreadKeepsCount(cfg, w, a);
    ThreadKeepsHandles(cfg, w, a);
    if a.TxLeave? {
      var t := w.threads[a.i];
      CompleteOk(cfg, w.s, t.h.slot, t.h.gen, t.data);
    }
  }

  lemma StepOk(cfg: Config, w: World, a: Action)
    requires ConfigOk(cfg) && WorldOk(cfg, w) && Enabled(cfg, w, a)
    ensures WorldOk(cfg, Apply(cfg, w, a))
  {
    match a
    case DispatchEnter(f) =>
    case DispatchLeave =>
      var f := w.disp.value;
      ProcessOk(cfg, w.s, f.msg, f.env);
      ProcessGrows(cfg, w.s, f.msg, f.env);
    case CleanFinish => CleanupOk(cfg, w.s);
    case CleanCall =>
    case CleanEnter =>
    case CleanTest =>
    case CleanSpurious =>
    case _ => ThreadStepOk(cfg, w, a);
  }

  lemma {:induction false} RunOk(cfg: Config, w: World, acts: seq<Action>)
    requires ConfigOk(cfg) && WorldOk(cfg, w) && Feasible(cfg, w, acts)
    ensures WorldOk(cfg, Run(cfg, w, acts))
    decreases |acts|
  {
    if |acts| > 0 {
      StepOk(cfg, w, acts[0]);
      RunOk(cfg, Apply(cfg, w, acts[0]), acts[1..]);
    }
  }
}
