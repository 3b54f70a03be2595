/**
 * One client and one server over a connection that keeps order and may lose any message, with the
 * client's timeouts. The question is whether the fids the client believes in are bound at the server.
 */
module Connection {
  import opened Bytes
  import opened Session
  import D = Dispatch
  import opened ServerFids
  import C = Client
  import opened R = ClientRuns
  import opened ClientShapes

  /** A message towards the server; `late` when some request other than a version call had begun. */
  datatype Packet = Packet(frame: seq<byte>, late: bool)

  /** What a tag was used for. */
  datatype Request = Request(kind: Kind, fid: nat)

  /** The last line records what happened: the requests by tag, the fids a clunk or remove was begun
      for, the fids a successful request established since, whether a request other than version was
      begun, whether the server has seen one, and whether a version call succeeded. */
  datatype Net = Net(
    cw: World, s: D.State, up: seq<Packet>, down: seq<D.Reply>,
    asked: map<nat, Request>, gone: set<nat>, held: set<nat>, started: bool, reached: bool, agreed: bool)

  datatype Turn =
    | CallBegins(t: nat, kind: Kind, fid: nat, retries: nat, built: bool, frame: seq<byte>, sent: bool)
    | CallWakes(t: nat)
    | CallTimesOut(t: nat, flushed: bool, frame: seq<byte>)
    | CallResumes(t: nat, sent: bool)
    | FlushReturns(t: nat)
    | Arrives(frame: seq<byte>)
    | Serves(env: Env)
    | Completes(slot: nat, gen: nat, data: seq<byte>)
    | LosesUp(i: nat)
    | LosesDown(i: nat)

  // ---------------------------------------------------------------- frames

  /** The frame a builder makes for a request. */
  predicate FrameFor(kind: Kind, fid: nat, wire: nat, m: seq<byte>) {
    && D.WellFormed(m) && U16(m, 5) == wire
    && match kind
       case Version => m[4] == TVERSION
       case Auth => m[4] == TAUTH && U32(m, 7) == fid
       case Attach => m[4] == TATTACH && U32(m, 7) == fid
       case Walk(n) => m[4] == TWALK && U32(m, 11) == fid && U16(m, 15) == n
       case Clunk => m[4] == TCLUNK && U32(m, 7) == fid
       case Remove => m[4] == TREMOVE && U32(m, 7) == fid
       case Other => m[4] !in {TVERSION, TAUTH, TATTACH, TWALK, TCLUNK, TREMOVE}
  }

  /** A frame that encodes a reply, as far as the client looks at it. */
  predicate Encodes(m: seq<byte>, r: D.Reply) {
    && HeaderOk(m) && U16(m, 5) == r.tag && (m[4] == C.RERROR <==> r.body.Rerror?)
    && (r.body.Rwalk? ==> |m| >= 9 && U16(m, 7) == |r.body.qids|)
  }

  // ---------------------------------------------------------------- steps

  predicate NoVersionInFlight(w: World) {
    forall t :: 0 <= t < |w.threads| && InFlight(w.threads[t]) ==> !w.threads[t].job.kind.Version?
  }

  /** Version calls come first and are over before any other request begins; only version calls and
      requests that change nothing are repeated; the tag counter has not reached NOTAG. */
  predicate Possible(y: Net, e: Turn) {
    match e
    case CallBegins(t, kind, fid, retries, built, frame, sent) =>
      && Enabled(y.cw, Begin(t, kind, fid, retries, built, frame, sent)) && y.cw.c.nextTag < C.NOTAG
      && (kind.Version? ==> !y.started) && (!kind.Version? ==> NoVersionInFlight(y.cw))
      && (retries > 0 ==> kind.Version? || kind.Other?)
      && (Launches(y.cw, kind, built) ==>
            FrameFor(kind, FidOf(y.cw, kind, fid), if kind.Version? then C.NOTAG else y.cw.c.nextTag, frame))
    case CallWakes(t) => Enabled(y.cw, Wake(t))
    case CallTimesOut(t, flushed, frame) =>
      && Enabled(y.cw, Timeout(t, flushed)) && (y.cw.threads[t].job.left == 0 ==> y.cw.c.nextTag < C.NOTAG)
      && (Flushes(y.cw, t, flushed) ==> D.WellFormed(frame) && frame[4] == TFLUSH && U16(frame, 5) == y.cw.c.nextTag)
    case CallResumes(t, sent) => Enabled(y.cw, Resume(t, sent))
    case FlushReturns(t) => Enabled(y.cw, FlushEnd(t))
    case Arrives(frame) => |y.down| > 0 && Encodes(frame, y.down[0])
    case Serves(env) => |y.up| > 0 && D.WellFormed(y.up[0].frame)
    case Completes(_, _, _) => true
    case LosesUp(i) => i < |y.up|
    case LosesDown(i) => i < |y.down|
  }

  function Without<T>(s: seq<T>, i: nat): seq<T>
    requires i < |s|
  {
    s[..i] + s[i + 1..]
  }

  function Sends(y: Net, frame: seq<byte>): Net { y.(up := y.up + [Packet(frame, y.started)]) }

  /** A fid is held from the successful return of the request that established it. */
  function Returns(y: Net, t: nat): Net
    requires t < |y.cw.threads|
  {
    var p := y.cw.threads[t];
    if !p.Idle? || !p.result.Answered? then y
    else if p.result.job.kind.Version? then y.(agreed := y.agreed || C.VersionOk(p.result.rx))
    else if TakesFid(p.result.job.kind) && Success(p.result) then y.(held := y.held + ({p.result.job.fid} - y.gone))
    else y
  }

  /** The books once a request is launched. */
  function Recorded(y: Net, kind: Kind, fid: nat, tag: nat): Net {
    y.(asked := if kind.Version? then y.asked else y.asked[tag := Request(kind, fid)],
       gone := if DropsFid(kind) then y.gone + {fid} else y.gone,
       held := if DropsFid(kind) then y.held - {fid} else y.held)
  }

  /** The connection once a call has begun and the client stands at w. */
  function Began(y: Net, w: World, kind: Kind, fid: nat, launched: bool, frame: seq<byte>, sent: bool): Net {
    var y1 := y.(cw := w, started := y.started || !kind.Version?);
    if !launched then y1
    else
      var y2 := Recorded(y1, kind, fid, y.cw.c.nextTag);
      if sent then Sends(y2, frame) else y2
  }

  function Step(cfg: Config, y: Net, e: Turn): Net
    requires Possible(y, e)
  {
    match e
    case CallBegins(t, kind, fid, retries, built, frame, sent) =>
      Began(y, Apply(y.cw, Begin(t, kind, fid, retries, built, frame, sent)), kind, FidOf(y.cw, kind, fid),
            Launches(y.cw, kind, built), frame, sent)
    case CallWakes(t) => Returns(y.(cw := Apply(y.cw, Wake(t))), t)
    case CallTimesOut(t, flushed, frame) =>
      var y1 := y.(cw := Apply(y.cw, Timeout(t, flushed)));
      if Flushes(y.cw, t, flushed) then Sends(y1.(asked := y.asked[y.cw.c.nextTag := Request(Other, 0)]), frame) else y1
    case CallResumes(t, sent) =>
      var job := y.cw.threads[t].job;
      var y1 := Returns(y.(cw := Apply(y.cw, Resume(t, sent))), t);
      if sent && !y.cw.c.slots[job.slot].complete then Sends(y1, job.frame) else y1
    case FlushReturns(t) => y.(cw := Apply(y.cw, FlushEnd(t)))
    case Arrives(frame) => y.(cw := Apply(y.cw, R.Receive(frame)), down := y.down[1..])
    case Serves(env) =>
      var s' := D.Process(cfg, y.s, y.up[0].frame, env);
      y.(s := s', up := y.up[1..], down := y.down + Since(y.s.sent, s'.sent), reached := y.reached || y.up[0].late)
    case Completes(slot, gen, data) =>
      var s' := D.Complete(cfg, y.s, slot, gen, data).s;
      y.(s := s', down := y.down + Since(y.s.sent, s'.sent))
    case LosesUp(i) => y.(up := Without(y.up, i))
    case LosesDown(i) => y.(down := Without(y.down, i))
  }

  predicate Feasible(cfg: Config, y: Net, es: seq<Turn>)
    decreases |es|
  {
    |es| == 0 || (Possible(y, es[0]) && Feasible(cfg, Step(cfg, y, es[0]), es[1..]))
  }

  function RunOf(cfg: Config, y: Net, es: seq<Turn>): Net
    requires Feasible(cfg, y, es)
    decreases |es|
  {
    if |es| == 0 then y else RunOf(cfg, Step(cfg, y, es[0]), es[1..])
  }

  predicate Begins(cfg: Config, y: Net) {
    && Boot(y.cw) && y.cw.c.nextTag == 0 && y.s == D.Initial(cfg) && y.up == [] && y.down == []
    && y.asked == map[] && y.gone == {} && y.held == {} && !y.started && !y.reached && !y.agreed
  }

  // ---------------------------------------------------------------- what every step keeps

  /** The fid a request was to establish is bound, or someone has begun to give it up. */
  predicate Kept(y: Net, fid: nat) { y.reached && (IsBound(y.s.x, fid) || fid in y.gone) }

  /** The reply says, to a client that asked for kind, that all was done. */
  predicate Grants(kind: Kind, m: seq<byte>)
    requires |m| >= 7
  {
    m[4] != C.RERROR && (kind.Walk? ==> |m| >= 9 && U16(m, 7) >= kind.names)
  }

  predicate GrantsBody(kind: Kind, b: Body) {
    !b.Rerror? && (kind.Walk? ==> b.Rwalk? && |b.qids| >= kind.names)
  }

  predicate ReplyOk(y: Net, r: D.Reply) {
    && (r.tag in y.asked || r.tag == C.NOTAG)
    && (r.tag in y.asked && TakesFid(y.asked[r.tag].kind) ==>
          && (y.asked[r.tag].kind.Walk? ==> r.body.Rerror? || r.body.Rwalk?)
          && (GrantsBody(y.asked[r.tag].kind, r.body) ==> Kept(y, y.asked[r.tag].fid)))
  }

  /** A frame towards the server is what its tag was used for. */
  predicate FrameOk(asked: map<nat, Request>, gone: set<nat>, m: seq<byte>) {
    && D.WellFormed(m)
    && (m[4] != TVERSION ==> U16(m, 5) in asked && FrameFor(asked[U16(m, 5)].kind, asked[U16(m, 5)].fid, U16(m, 5), m))
    && (m[4] == TVERSION ==> U16(m, 5) == C.NOTAG)
    && (m[4] == TCLUNK || m[4] == TREMOVE ==> U32(m, 7) in gone)
  }

  predicate PacketOk(y: Net, p: Packet) {
    && FrameOk(y.asked, y.gone, p.frame)
    && (p.late ==> y.started) && (p.frame[4] == TVERSION ==> !p.late) && (y.reached ==> p.late)
    && (p.frame[4] in {TAUTH, TATTACH, TWALK} ==> p.late)
  }

  predicate SlotGrants(kind: Kind, s: C.Slot) { s.complete && s.fault.NoFault? && |s.rx| >= 7 && Grants(kind, s.rx) }

  predicate CallOk(y: Net, t: nat)
    requires t < |y.cw.threads|
  {
    var p := y.cw.threads[t];
    InFlight(p) ==>
      && p.job.tag < y.cw.c.nextTag && (p.Flushing? ==> p.ftag < y.cw.c.nextTag)
      && p.job.kind.Version? == !y.started
      && (!p.job.kind.Version? ==> p.job.wire in y.asked && y.asked[p.job.wire] == Request(p.job.kind, p.job.fid))
      && FrameOk(y.asked, y.gone, p.job.frame) && (p.job.frame[4] == TVERSION <==> p.job.kind.Version?)
      && (TakesFid(p.job.kind) && p.job.slot < |y.cw.c.slots| && SlotGrants(p.job.kind, y.cw.c.slots[p.job.slot])
          ==> Kept(y, p.job.fid))
  }

  predicate ParkedOk(y: Net) {
    forall g :: g in ParkedTags(y.s.pend) ==> g in y.asked && !TakesFid(y.asked[g].kind)
  }

  predicate Ordered(up: seq<Packet>) { forall i, j :: 0 <= i < j < |up| && up[i].late ==> up[j].late }

  predicate TagsUsed(y: Net) { forall g :: g in y.asked ==> g < y.cw.c.nextTag }

  predicate NetOk(y: Net) {
    && WorldOk(y.cw) && y.cw.c.nextTag <= C.NOTAG && TagsUsed(y)
    && (forall t :: 0 <= t < |y.cw.threads| ==> CallOk(y, t))
    && (forall i :: 0 <= i < |y.up| ==> PacketOk(y, y.up[i])) && Ordered(y.up)
    && (forall i :: 0 <= i < |y.down| ==> ReplyOk(y, y.down[i]))
    && ParkedOk(y)
    && (forall f :: f in y.held ==> Kept(y, f) && f !in y.gone)
    && (y.reached ==> y.started)
  }

  lemma BeginsOk(cfg: Config, y: Net)
    requires Begins(cfg, y)
    ensures NetOk(y)
  {
    BootOk(y.cw);
  }
}
