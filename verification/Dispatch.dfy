/**
 * Dispatch of one frame, completion of a parked read and cleanup, as functions of the server's
 * state. Beside the session the state holds the parked reads, the replies handed to the transport
 * and the history needed to speak about requests: `reqs[r]` is the tag of request number r,
 * `dropped` the requests a session reset or cleanup discarded, and `issued` the handles given out.
 * The `rid` of a parked read, reply or handle is such history too: no handler branches on it.
 */
module Dispatch {
  import opened Bytes
  import opened Traces
  import opened Session

  datatype PendingRead = PendingRead(inUse: bool, tag: nat, fid: nat, count: nat, gen: nat, rid: nat)

  datatype Reply = Reply(rid: nat, tag: nat, body: Body)

  datatype Handle = Handle(slot: nat, gen: nat, rid: nat)

  /** `pendGen` counts all parkings; the 32-bit token stored in a slot is its residue. */
  datatype State = State(x: Session, pend: seq<PendingRead>, pendGen: nat,
                         reqs: seq<nat>, sent: Trace<Reply>, dropped: Trace<nat>, issued: set<Handle>)

  /** The state ninep_server_init leaves: zeroed tables and the default msize. */
  function Initial(cfg: Config): State {
    State(Session(seq(cfg.maxFids, _ => FidEntry(false, 0, 0, 0, 0, 0, false, false, false, 0)),
                  seq(cfg.unamePool, _ => Uname(seq(NAME_SIZE, _ => 0), 0)),
                  seq(cfg.authPool, _ => AuthSlot(false, [], seq(CHALLENGE_SIZE, _ => 0), 0, false, false)),
                  cfg.maxMessage, Start),
          seq(cfg.maxPending, _ => PendingRead(false, 0, 0, 0, 0, 0)), 0, [], Start, Start, {})
  }

  function Post(cfg: Config, s: State, rid: nat, tag: nat, body: Body): State {
    if Size(body) <= cfg.maxMessage then s.(sent := Then(s.sent, Reply(rid, tag, body))) else s
  }

  /** The reply to the request being dispatched. */
  function Respond(cfg: Config, s: State, tag: nat, body: Body): State
    requires |s.reqs| > 0
  {
    Post(cfg, s, |s.reqs| - 1, tag, body)
  }

  function Finish(cfg: Config, s: State, tag: nat, d: Done): State
    requires |s.reqs| > 0
  {
    Respond(cfg, s.(x := d.x), tag, d.body)
  }

  // ---------------------------------------------------------------- parked reads

  datatype Selector = OfFidOrTag(fid: nat, tag: nat) | OfTag(tag: nat) | OfFid(fid: nat)

  predicate Selects(sel: Selector, p: PendingRead) {
    p.inUse && match sel
               case OfFidOrTag(f, t) => p.fid == f || p.tag == t
               case OfTag(t) => p.tag == t
               case OfFid(f) => p.fid == f
  }

  /** Answer one parked read with zero bytes and free its slot. */
  function CancelOne(cfg: Config, s: State, i: nat): State
    requires i < |s.pend|
  {
    var p := s.pend[i];
    Post(cfg, s, p.rid, p.tag, Rread([])).(pend := s.pend[i := p.(inUse := false)])
  }

  function CancelFrom(cfg: Config, s: State, sel: Selector, i: nat): State
    requires i <= |s.pend|
    decreases |s.pend| - i
  {
    if i == |s.pend| then s
    else CancelFrom(cfg, if Selects(sel, s.pend[i]) then CancelOne(cfg, s, i) else s, sel, i + 1)
  }

  function Cancel(cfg: Config, s: State, sel: Selector): State { CancelFrom(cfg, s, sel, 0) }

  function FreeSlot(pend: seq<PendingRead>): (i: nat)
    ensures i <= |pend|
    ensures i < |pend| ==> !pend[i].inUse
    ensures forall k :: 0 <= k < i ==> pend[k].inUse
  {
    if |pend| == 0 || !pend[0].inUse then 0
    else
      var r := FreeSlot(pend[1..]);
      assert forall k :: 1 <= k < r + 1 ==> pend[k] == pend[1..][k - 1];
      1 + r
  }

  /** pending_read_alloc: the slot is taken under the next generation token. */
  function Park(s: State, slot: nat, tag: nat, fid: nat, count: nat): State
    requires slot < |s.pend| && |s.reqs| > 0
  {
    s.(pend := s.pend[slot := PendingRead(true, tag, fid, count, (s.pendGen + 1) % MOD32, |s.reqs| - 1)],
       pendGen := s.pendGen + 1)
  }

  function Unpark(s: State, slot: nat): State
    requires slot < |s.pend|
  {
    s.(pend := s.pend[slot := s.pend[slot].(inUse := false)])
  }

  /** The requests parked in the first n slots are discarded. */
  function DropRids(pend: seq<PendingRead>, n: nat, dropped: Trace<nat>): Trace<nat>
    requires n <= |pend|
  {
    if n == 0 then dropped
    else
      var d := DropRids(pend, n - 1, dropped);
      if pend[n - 1].inUse then Then(d, pend[n - 1].rid) else d
  }

  function FreeSlots(pend: seq<PendingRead>): (r: seq<PendingRead>)
    ensures |r| == |pend|
    ensures forall k :: 0 <= k < |r| ==> r[k] == pend[k].(inUse := false)
  {
    seq(|pend|, k requires 0 <= k < |pend| => pend[k].(inUse := false))
  }

  /** All parked reads are discarded without a reply. */
  function DropParked(s: State): State {
    s.(pend := FreeSlots(s.pend), dropped := DropRids(s.pend, |s.pend|, s.dropped))
  }

  // ---------------------------------------------------------------- handlers with parked reads

  function HandleTversion(cfg: Config, s: State, msg: seq<byte>, env: Env): State
    requires |msg| >= 7 && |s.reqs| > 0
  {
    match Negotiate(cfg, msg, env)
    case Refused(body) => Respond(cfg, s, U16(msg, 5), body)
    case Accepted(msize) =>
      var s1 := DropParked(s);
      Respond(cfg, s1.(x := ResetSession(cfg, s1.x, msize)), U16(msg, 5), Rversion(msize, true))
  }

  function HandleTflush(cfg: Config, s: State, msg: seq<byte>): State
    requires |msg| >= 9 && |s.reqs| > 0
  {
    CancelKeeps(cfg, s, OfTag(U16(msg, 7)), 0);
    Respond(cfg, Cancel(cfg, s, OfTag(U16(msg, 7))), U16(msg, 5), Rflush)
  }

  function HandleTclunk(cfg: Config, s: State, msg: seq<byte>): State
    requires |msg| >= 11 && |s.reqs| > 0
  {
    var fid := U32(msg, 7);
    if FindFid(s.x.fids, fid) == |s.x.fids| then Respond(cfg, s, U16(msg, 5), Rclunk)
    else
      CancelKeeps(cfg, s, OfFid(fid), 0);
      var s1 := Cancel(cfg, s, OfFid(fid));
      Finish(cfg, s1, U16(msg, 5), Done(ClunkFid(cfg, s1.x, fid), Rclunk))
  }

  /** Largest payload of an Rread that fits both the buffer and the negotiated msize. */
  function ReadLimit(cfg: Config, msize: nat): nat {
    var room := (cfg.maxMessage - 11) % MOD32;
    if msize > 11 && msize - 11 < room then msize - 11 else room
  }

  function ReadReply(env: Env): Body {
    if env.rc.Ok? then Rread(env.data) else Rerror(ErrnoEname(env.rc.e, ReadFailed))
  }

  /** The read proper, on an open fid: at once, or parked when the filesystem defers it. */
  function ReadFile(cfg: Config, s: State, e: FidEntry, tag: nat, count: nat, env: Env): State
    requires |s.reqs| > 0
  {
    var called := s.x.(log := Then(s.x.log, FsRead(e.fid, FidIdentity(s.x, e))));
    if !cfg.canDefer then Finish(cfg, s, tag, Done(called, ReadReply(env)))
    else
      CancelKeeps(cfg, s, OfFidOrTag(e.fid, tag), 0);
      var s1 := Cancel(cfg, s, OfFidOrTag(e.fid, tag)).(x := called);
      var slot := FreeSlot(s1.pend);
      if slot == |s1.pend| then
        Respond(cfg, s1, tag, if env.rc == DEFER then Rread([]) else ReadReply(env))
      else
        var s2 := Park(s1, slot, tag, e.fid, count);
        if env.rc == DEFER then
          s2.(issued := s2.issued + {Handle(slot, s2.pend[slot].gen, |s.reqs| - 1)})
        else Respond(cfg, Unpark(s2, slot), tag, ReadReply(env))
  }

  function HandleTread(cfg: Config, s: State, msg: seq<byte>, env: Env): State
    requires |msg| >= 7 && |s.reqs| > 0
  {
    var tag := U16(msg, 5);
    if |msg| < 23 then Respond(cfg, s, tag, Rerror(MalformedTread))
    else
      var fid, offset, count := U32(msg, 7), U64(msg, 11), U32(msg, 19);
      var i := FindFid(s.x.fids, fid);
      if i == |s.x.fids| then Respond(cfg, s, tag, Rerror(UnknownFid))
      else
        var e := s.x.fids[i];
        if e.isAuth then Finish(cfg, s, tag, AuthRead(s.x, e, offset, count, env))
        else if e.node == 0 then Respond(cfg, s, tag, Rerror(UnknownFid))
        else if !e.isOpen then Respond(cfg, s, tag, Rerror(NotOpen))
        else if e.openMode % 4 == OWRITE then Respond(cfg, s, tag, Rerror(NotOpenForReading))
        else
          var limit := ReadLimit(cfg, s.x.msize);
          ReadFile(cfg, s, e, tag, if count > limit then limit else count, env)
  }

  // ---------------------------------------------------------------- one frame

  /** How far a handler reads into the frame before it looks at the length, if it does at all. */
  function Unchecked(t: byte): nat {
    if t == TATTACH then 15
    else if t == TFLUSH then 9
    else if t == TWALK then 17
    else if t == TOPEN then 12
    else if t in {TAUTH, TCLUNK, TREMOVE, TSTAT, TWSTAT} then 11
    else 7
  }

  /** A frame that holds all its handler reads unchecked. */
  predicate WellFormed(msg: seq<byte>) { HeaderOk(msg) && |msg| >= Unchecked(msg[4]) }

  /** The frame together with what a handler reads behind its end. */
  function Seen(msg: seq<byte>, env: Env): (m: seq<byte>)
    requires HeaderOk(msg)
    ensures WellFormed(m) && m[4] == msg[4] && U16(m, 5) == U16(msg, 5)
    ensures WellFormed(msg) ==> m == msg
  {
    Padded(msg, Unchecked(msg[4]), env)
  }

  function Handle1(cfg: Config, s: State, msg: seq<byte>, env: Env): State
    requires WellFormed(msg) && |s.reqs| > 0
  {
    var t, tag := msg[4], U16(msg, 5);
    if t == TVERSION then HandleTversion(cfg, s, msg, env)
    else if t == TAUTH then Finish(cfg, s, tag, HandleTauth(cfg, s.x, msg, env))
    else if t == TATTACH then Finish(cfg, s, tag, HandleTattach(cfg, s.x, msg, env))
    else if t == TFLUSH then HandleTflush(cfg, s, msg)
    else if t == TWALK then Finish(cfg, s, tag, HandleTwalk(cfg, s.x, msg, env))
    else if t == TOPEN then Finish(cfg, s, tag, HandleTopen(cfg, s.x, msg, env))
    else if t == TCREATE then Finish(cfg, s, tag, HandleTcreate(cfg, s.x, msg, env))
    else if t == TREAD then HandleTread(cfg, s, msg, env)
    else if t == TWRITE then Finish(cfg, s, tag, HandleTwrite(cfg, s.x, msg, env))
    else if t == TCLUNK then HandleTclunk(cfg, s, msg)
    else if t == TREMOVE then Finish(cfg, s, tag, HandleTremove(cfg, s.x, msg, env))
    else if t == TSTAT then Finish(cfg, s, tag, HandleTstat(cfg, s.x, msg, env))
    else if t == TWSTAT then Finish(cfg, s, tag, HandleTwstat(s.x, msg))
    else Respond(cfg, s, tag, Rerror(NotSupported))
  }

  function Receive(s: State, msg: seq<byte>): State
    requires |msg| >= 7
  {
    s.(reqs := s.reqs + [U16(msg, 5)])
  }

  /** ninep_server_process_message; a frame without a usable header is ignored. */
  function Process(cfg: Config, s: State, msg: seq<byte>, env: Env): State {
    if HeaderOk(msg) then Handle1(cfg, Receive(s, msg), Seen(msg, env), env) else s
  }

  // ---------------------------------------------------------------- completion and cleanup

  datatype CompleteRc = Answered | Stale | BuildFailed

  datatype Completion = Completion(s: State, rc: CompleteRc)

  predicate Answerable(s: State, slot: nat, gen: nat) {
    slot < |s.pend| && s.pend[slot].inUse && s.pend[slot].gen == gen
  }

  function Clamp(cfg: Config, p: PendingRead, data: seq<byte>): seq<byte> {
    var n := if |data| > p.count then p.count else |data|;
    var room := (cfg.maxMessage - 11) % MOD64;
    data[..if n > room then room else n]
  }

  /** The part of ninep_server_read_complete that runs under tx_buf_mutex. */
  function Complete(cfg: Config, s: State, slot: nat, gen: nat, data: seq<byte>): Completion {
    if !Answerable(s, slot, gen) then Completion(s, Stale)
    else
      var p := s.pend[slot];
      var body := Rread(Clamp(cfg, p, data));
      Completion(Unpark(Post(cfg, s, p.rid, p.tag, body), slot),
                 if Size(body) <= cfg.maxMessage then Answered else BuildFailed)
  }

  /** Clunk the first n fids and give back what they hold. */
  function CleanupFids(cfg: Config, x: Session, n: nat): (r: Session)
    requires n <= |x.fids|
    ensures |r.fids| == |x.fids|
    ensures forall k :: n <= k < |x.fids| ==> r.fids[k] == x.fids[k]
  {
    if n == 0 then x
    else
      var y := CleanupFids(cfg, x, n - 1);
      var e := y.fids[n - 1];
      if !e.inUse then y
      else
        ReleaseEntry(if e.node != 0 && cfg.canClunk then y.(log := Then(y.log, FsClunk(e.node))) else y, n - 1)
  }

  /** What ninep_server_cleanup does once no completion is inside. */
  function Cleanup(cfg: Config, s: State): State {
    var s1 := DropParked(s);
    s1.(x := CleanupFids(cfg, s1.x, |s1.x.fids|))
  }

  // ---------------------------------------------------------------- frames of the pieces

  /** Cancelling touches the parked reads and the replies, nothing else. */
  lemma {:induction false} CancelKeeps(cfg: Config, s: State, sel: Selector, i: nat)
    requires i <= |s.pend|
    ensures var r := CancelFrom(cfg, s, sel, i);
            r == s.(pend := r.pend, sent := r.sent) && |r.pend| == |s.pend|
    ensures forall k :: 0 <= k < |s.pend| ==>
              CancelFrom(cfg, s, sel, i).pend[k] ==
              if i <= k && Selects(sel, s.pend[k]) then s.pend[k].(inUse := false) else s.pend[k]
    decreases |s.pend| - i
  {
    if i < |s.pend| {
      var s1 := if Selects(sel, s.pend[i]) then CancelOne(cfg, s, i) else s;
      CancelKeeps(cfg, s1, sel, i + 1);
    }
  }

  /** Of the session, a read of a file changes the log alone. */
  lemma ReadFileLogs(cfg: Config, s: State, e: FidEntry, tag: nat, count: nat, env: Env)
    requires |s.reqs| > 0
    ensures ReadFile(cfg, s, e, tag, count, env).x == s.x.(log := Then(s.x.log, FsRead(e.fid, FidIdentity(s.x, e))))
  {
    CancelKeeps(cfg, s, OfFidOrTag(e.fid, tag), 0);
  }

  /** A read of an auth fid may mark its challenge as issued. */
  lemma ReadTouches(cfg: Config, s: State, msg: seq<byte>, env: Env)
    requires |msg| >= 7 && |s.reqs| > 0
    ensures var y := HandleTread(cfg, s, msg, env).x;
            && y.fids == s.x.fids && y.names == s.x.names && |y.auths| == |s.x.auths|
            && (forall j :: 0 <= j < |y.auths| ==> y.auths[j] == s.x.auths[j].(issued := y.auths[j].issued))
            && (y.log == s.x.log || (y.log.Then? && y.log.before == s.x.log && y.log.last.FsRead?))
  {
    if |msg| >= 23 {
      var i := FindFid(s.x.fids, U32(msg, 7));
      if i < |s.x.fids| && !s.x.fids[i].isAuth {
        var count, limit := U32(msg, 19), ReadLimit(cfg, s.x.msize);
        ReadFileLogs(cfg, s, s.x.fids[i], U16(msg, 5), if count > limit then limit else count, env);
      }
    }
  }
}
