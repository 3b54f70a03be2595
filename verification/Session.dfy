/**
 * The per-session tables of the 9P server and its handlers, as functions of the session, the
 * received frame and what the filesystem, the transport, the clock and the authentication
 * callbacks answer during that one dispatch (`Env`).
 */
module Session {
  import opened Bytes
  import opened PathNames
  import opened Traces

  const POOL_NONE: nat := 0xFF
  const NOFID: nat := 0xFFFF_FFFF
  const MAX_WELEM: nat := 16
  const NAME_SIZE: nat := 64
  const CHALLENGE_SIZE: nat := 32
  const CHALLENGE_LIFE: nat := 60000
  const VERSION_9P2000: seq<byte> := [57, 80, 50, 48, 48, 48]
  const ANONYMOUS: seq<byte> := [97, 110, 111, 110, 121, 109, 111, 117, 115]

  const TVERSION := 100
  const TAUTH := 102
  const TATTACH := 104
  const TFLUSH := 108
  const TWALK := 110
  const TOPEN := 112
  const TCREATE := 114
  const TREAD := 116
  const TWRITE := 118
  const TCLUNK := 120
  const TREMOVE := 122
  const TSTAT := 124
  const TWSTAT := 126

  /** Room for the longest reply that does not depend on the filesystem: Rwalk with 16 qids. */
  const MAX_FIXED_REPLY: nat := 217

  const OREAD := 0
  const OWRITE := 1
  const OEXEC := 3

  /** Build-time sizes, the optional filesystem operations and the authentication policy. */
  datatype Config = Config(
    maxFids: nat, unamePool: nat, authPool: nat, maxPending: nat, maxMessage: nat,
    canClunk: bool, canDefer: bool, canCreate: bool, canWrite: bool, canRemove: bool, canPath: bool,
    auth: bool, authRequired: bool, canVerify: bool, canCheckPerm: bool)

  datatype Errno = EACCES | EPERM | ENOENT | ENOTDIR | EISDIR | EEXIST | ENOSPC | ENOMEM | EINVAL
    | ENOTSUP | EAGAIN | ETIMEDOUT | EINPROGRESS | EIO

  datatype Answer = Ok(n: nat) | Err(e: Errno)

  const DEFER := Err(EINPROGRESS)

  datatype Qid = Qid(kind: byte, version: nat, path: nat)

  /** What the outside world answers while one frame is dispatched. Node 0 is NULL. For a read,
      `Ok` means that the |data| bytes of `data` were put into the transmit buffer. `permits` is the
      policy on an identity, a node's path and an open mode, `verifies` the application's verdict on a
      claimed identity, a public key, a signature and a challenge. `behind` is what memory holds behind
      a frame or a text constant, for the handlers that read past its end. */
  datatype Env = Env(
    mtu: int, now: nat, root: nat, walks: seq<nat>, rc: Answer, data: seq<byte>, created: nat,
    pathOk: bool, permits: (seq<byte>, nat, nat) -> bool,
    verifies: (seq<byte>, seq<byte>, seq<byte>, Challenge) -> bool,
    challenge: Challenge, qid: nat -> Qid, behind: nat -> byte)

  datatype FidEntry = FidEntry(
    inUse: bool, fid: nat, node: nat, iounit: nat, unameIdx: nat, authIdx: nat,
    isAuth: bool, authenticated: bool, isOpen: bool, openMode: nat)

  type NameBuf = b: seq<byte> | |b| == NAME_SIZE witness seq(NAME_SIZE, _ => 0)

  /** One interned username and the eight-bit count of the fids that hold it. */
  datatype Uname = Uname(text: NameBuf, refs: nat)

  type Challenge = b: seq<byte> | |b| == CHALLENGE_SIZE witness seq(CHALLENGE_SIZE, _ => 0)

  datatype AuthSlot = AuthSlot(used: bool, identity: seq<byte>, challenge: Challenge, time: nat,
                               issued: bool, authenticated: bool)

  /** What happened, in order: calls into the filesystem and the policy, and session milestones. */
  datatype Event =
    | Reset
    | Verified(id: seq<byte>)
    | Bound(fid: nat)
    | Opened(fid: nat, mode: nat)
    | Walks(fid: nat)
    | FsWalk(fid: nat, node: nat, name: seq<byte>)
    | FsClunk(node: nat)
    | FsRead(fid: nat, id: seq<byte>)
    | FsWrite(fid: nat, id: seq<byte>)
    | FsCreate(fid: nat, id: seq<byte>)
    | CheckPerm(fid: nat, id: seq<byte>)

  type Log = Trace<Event>

  datatype Session = Session(fids: seq<FidEntry>, names: seq<Uname>, auths: seq<AuthSlot>,
                             msize: nat, log: Log)

  datatype Ename = BadTversion | AuthIncomplete | UnameMismatch | AuthRequired | FidInUse
    | CannotGetRoot | AnameNotFound | UnknownFid | WalkOpenFid | TooManyNames | CannotAllocNewfid
    | MalformedWalk | FileNotFound | AlreadyOpen | PermissionDenied | NotAuthorized | NotADirectory
    | IsADirectory | AlreadyExists | NoSpace | OutOfMemory | InvalidArgument | NotSupported
    | TryAgain | TimedOut | OpenFailed | MalformedTread | InvalidAuthState | AuthTimeout | NotOpen
    | NotOpenForReading | ReadFailed | StatFailed | RstatBuildFailed | AuthNotRequired
    | InvalidIdentity | CannotAllocAfid | TooManyAuths | MalformedTcreate | CreateNotSupported
    | CreateFailed | RcreateBuildFailed | MalformedTwrite | AuthStateLost | ReadChallengeFirst
    | InvalidAuthResponse | AuthNotConfigured | InvalidAuthSize | AuthFailed | NotOpenForWriting
    | WriteNotSupported | WriteFailed | RwriteBuildFailed | RemoveNotSupported | RemoveFailed
    | WstatNotSupported

  /** The text of an Rerror; the longest one decides how small a transmit buffer may be. */
  function Text(e: Ename): (t: string)
    ensures |t| <= 43
  {
    match e
    case BadTversion => "bad Tversion"
    case AuthIncomplete => "authentication incomplete"
    case UnameMismatch => "uname does not match authenticated identity"
    case AuthRequired => "authentication required"
    case FidInUse => "FID already in use"
    case CannotGetRoot => "cannot get root"
    case AnameNotFound => "aname not found"
    case UnknownFid => "unknown fid"
    case WalkOpenFid => "cannot walk an open fid"
    case TooManyNames => "too many name elements"
    case CannotAllocNewfid => "cannot allocate newfid"
    case MalformedWalk => "malformed walk message"
    case FileNotFound => "file not found"
    case AlreadyOpen => "fid already open"
    case PermissionDenied => "permission denied"
    case NotAuthorized => "not authorized"
    case NotADirectory => "not a directory"
    case IsADirectory => "is a directory"
    case AlreadyExists => "file already exists"
    case NoSpace => "no space left on device"
    case OutOfMemory => "out of memory"
    case InvalidArgument => "invalid argument"
    case NotSupported => "operation not supported"
    case TryAgain => "resource temporarily unavailable"
    case TimedOut => "timeout"
    case OpenFailed => "open failed"
    case MalformedTread => "malformed Tread"
    case InvalidAuthState => "invalid auth state"
    case AuthTimeout => "authentication timeout"
    case NotOpen => "fid not open"
    case NotOpenForReading => "fid not open for reading"
    case ReadFailed => "read failed"
    case StatFailed => "stat failed"
    case RstatBuildFailed => "rstat build failed"
    case AuthNotRequired => "authentication not required"
    case InvalidIdentity => "invalid identity"
    case CannotAllocAfid => "cannot allocate afid"
    case TooManyAuths => "too many concurrent authentications"
    case MalformedTcreate => "malformed Tcreate"
    case CreateNotSupported => "create not supported"
    case CreateFailed => "create failed"
    case RcreateBuildFailed => "rcreate build failed"
    case MalformedTwrite => "malformed Twrite"
    case AuthStateLost => "auth state lost"
    case ReadChallengeFirst => "must read challenge first"
    case InvalidAuthResponse => "invalid auth response"
    case AuthNotConfigured => "auth not configured"
    case InvalidAuthSize => "invalid auth response size"
    case AuthFailed => "authentication failed"
    case NotOpenForWriting => "fid not open for writing"
    case WriteNotSupported => "write not supported"
    case WriteFailed => "write failed"
    case RwriteBuildFailed => "rwrite build failed"
    case RemoveNotSupported => "remove not supported"
    case RemoveFailed => "remove failed"
    case WstatNotSupported => "wstat not supported"
  }

  function ErrnoEname(e: Errno, fallback: Ename): Ename {
    match e
    case EACCES => PermissionDenied
    case EPERM => NotAuthorized
    case ENOENT => FileNotFound
    case ENOTDIR => NotADirectory
    case EISDIR => IsADirectory
    case EEXIST => AlreadyExists
    case ENOSPC => NoSpace
    case ENOMEM => OutOfMemory
    case EINVAL => InvalidArgument
    case ENOTSUP => NotSupported
    case EAGAIN => TryAgain
    case ETIMEDOUT => TimedOut
    case EINPROGRESS => fallback
    case EIO => fallback
  }

  datatype Body =
    | Rversion(msize: nat, accepted: bool)
    | Rauth(qid: Qid)
    | Rattach(qid: Qid)
    | Rerror(ename: Ename)
    | Rflush
    | Rwalk(qids: seq<Qid>)
    | Ropen(qid: Qid, iounit: nat)
    | Rcreate(qid: Qid, iounit: nat)
    | Rread(data: seq<byte>)
    | Rwrite(count: nat)
    | Rclunk
    | Rremove
    | Rstat(len: nat)

  /** Bytes on the wire: header[7] and the fields of each reply. */
  function Size(b: Body): (n: nat)
  {
    match b
    case Rversion(_, accepted) => 13 + (if accepted then 6 else 7)
    case Rauth(_) => 20
    case Rattach(_) => 20
    case Rerror(e) => 9 + |Text(e)|
    case Rflush => 7
    case Rwalk(q) => 9 + 13 * |q|
    case Ropen(_, _) => 24
    case Rcreate(_, _) => 24
    case Rread(d) => 11 + |d|
    case Rwrite(_) => 11
    case Rclunk => 7
    case Rremove => 7
    case Rstat(n) => 9 + n
  }

  /** A handler's effect on the session and the one reply it sends. */
  datatype Done = Done(x: Session, body: Body)

  function Fail(x: Session, e: Ename): Done { Done(x, Rerror(e)) }

  // ---------------------------------------------------------------- tables

  /** First in-use entry for `fid`, or |fids|. */
  function FindFid(fids: seq<FidEntry>, fid: nat): (i: nat)
    ensures i <= |fids|
    ensures i < |fids| ==> fids[i].inUse && fids[i].fid == fid
    ensures forall k :: 0 <= k < i ==> !(fids[k].inUse && fids[k].fid == fid)
  {
    if |fids| == 0 then 0
    else if fids[0].inUse && fids[0].fid == fid then 0
    else
      var r := FindFid(fids[1..], fid);
      assert forall k :: 1 <= k < r + 1 ==> fids[k] == fids[1..][k - 1];
      1 + r
  }

  function FreeEntry(fids: seq<FidEntry>): (i: nat)
    ensures i <= |fids|
    ensures i < |fids| ==> !fids[i].inUse
    ensures forall k :: 0 <= k < i ==> fids[k].inUse
  {
    if |fids| == 0 || !fids[0].inUse then 0
    else
      var r := FreeEntry(fids[1..]);
      assert forall k :: 1 <= k < r + 1 ==> fids[k] == fids[1..][k - 1];
      1 + r
  }

  /** Where alloc_fid puts `fid`, or |fids| when it is taken or the table is full. */
  function AllocAt(fids: seq<FidEntry>, fid: nat): (i: nat)
    ensures i <= |fids|
    ensures i < |fids| ==> !fids[i].inUse && FindFid(fids, fid) == |fids|
  {
    if FindFid(fids, fid) < |fids| then |fids| else FreeEntry(fids)
  }

  /** alloc_fid leaves the `authenticated` flag of the slot's last owner in place. */
  function FreshEntry(old_: FidEntry, fid: nat): FidEntry {
    FidEntry(true, fid, 0, 0, POOL_NONE, POOL_NONE, false, old_.authenticated, false, 0)
  }

  function AllocFid(x: Session, fid: nat, k: nat): Session
    requires k < |x.fids|
  {
    x.(fids := x.fids[k := FreshEntry(x.fids[k], fid)], log := Then(x.log, Bound(fid)))
  }

  function SetFid(x: Session, k: nat, e: FidEntry): Session
    requires k < |x.fids|
  {
    x.(fids := x.fids[k := e])
  }

  function Release(names: seq<Uname>, idx: nat): seq<Uname> {
    if idx < |names| && names[idx].refs > 0 then names[idx := names[idx].(refs := names[idx].refs - 1)]
    else names
  }

  /** The reference taken on behalf of one more fid (an eight-bit counter). */
  function Retain(names: seq<Uname>, idx: nat): seq<Uname> {
    if idx < |names| then names[idx := names[idx].(refs := (names[idx].refs + 1) % 256)] else names
  }

  function UnameGet(names: seq<Uname>, idx: nat): seq<byte> {
    if idx < |names| && names[idx].refs > 0 then CStr(names[idx].text) else []
  }

  predicate Holds(u: Uname, name: seq<byte>)
    requires |name| < NAME_SIZE
  {
    u.refs > 0 && SameUpTo(u.text, name, |name|) && u.text[|name|] == 0
  }

  function FindName(names: seq<Uname>, name: seq<byte>): (i: nat)
    requires |name| < NAME_SIZE
    ensures i <= |names|
    ensures i < |names| ==> Holds(names[i], name)
    ensures forall k :: 0 <= k < i ==> !Holds(names[k], name)
  {
    if |names| == 0 || Holds(names[0], name) then 0
    else
      var r := FindName(names[1..], name);
      assert forall k :: 1 <= k < r + 1 ==> names[k] == names[1..][k - 1];
      1 + r
  }

  function FreeName(names: seq<Uname>): (i: nat)
    ensures i <= |names|
    ensures i < |names| ==> names[i].refs == 0
    ensures forall k :: 0 <= k < i ==> names[k].refs != 0
  {
    if |names| == 0 || names[0].refs == 0 then 0
    else
      var r := FreeName(names[1..]);
      assert forall k :: 1 <= k < r + 1 ==> names[k] == names[1..][k - 1];
      1 + r
  }

  /** memcpy of the name and its NUL over a pool entry; the bytes behind it stay. */
  function Overlay(text: NameBuf, name: seq<byte>): NameBuf
    requires |name| < NAME_SIZE
  {
    name + [0] + text[|name| + 1..]
  }

  function Clip(name: seq<byte>): (r: seq<byte>)
    ensures |r| < NAME_SIZE
  {
    if |name| >= NAME_SIZE then name[..NAME_SIZE - 1] else name
  }

  datatype Interned = Interned(idx: nat, names: seq<Uname>)

  function Intern(names: seq<Uname>, name: seq<byte>): Interned {
    var n := Clip(name);
    var i := FindName(names, n);
    if i < |names| then Interned(i, Retain(names, i))
    else
      var j := FreeName(names);
      if j < |names| then Interned(j, names[j := Uname(Overlay(names[j].text, n), 1)])
      else Interned(POOL_NONE, names)
  }

  function FreeAuth(auths: seq<AuthSlot>): (i: nat)
    ensures i <= |auths|
    ensures i < |auths| ==> !auths[i].used
    ensures forall k :: 0 <= k < i ==> auths[k].used
  {
    if |auths| == 0 || !auths[0].used then 0
    else
      var r := FreeAuth(auths[1..]);
      assert forall k :: 1 <= k < r + 1 ==> auths[k] == auths[1..][k - 1];
      1 + r
  }

  function AuthFree(auths: seq<AuthSlot>, idx: nat): seq<AuthSlot> {
    if idx < |auths| then auths[idx := auths[idx].(used := false)] else auths
  }

  predicate AuthLive(auths: seq<AuthSlot>, idx: nat) { idx < |auths| && auths[idx].used }

  function Cleared(e: FidEntry): FidEntry {
    e.(inUse := false, node := 0, unameIdx := POOL_NONE, authIdx := POOL_NONE)
  }

  /** Give back what entry i holds of the pools and empty it. */
  function ReleaseEntry(x: Session, i: nat): Session
    requires i < |x.fids|
  {
    var e := x.fids[i];
    x.(fids := x.fids[i := Cleared(e)],
       names := if e.unameIdx != POOL_NONE then Release(x.names, e.unameIdx) else x.names,
       auths := if e.authIdx != POOL_NONE then AuthFree(x.auths, e.authIdx) else x.auths)
  }

  function FreeFid(x: Session, fid: nat): Session {
    var i := FindFid(x.fids, fid);
    if i == |x.fids| then x else ReleaseEntry(x, i)
  }

  /** The identity shown to the filesystem and the permission policy. */
  function FidIdentity(x: Session, e: FidEntry): seq<byte> {
    if !e.authenticated || e.unameIdx == POOL_NONE then [] else UnameGet(x.names, e.unameIdx)
  }

  /** check_perm_or_deny: whether the operation may go on, and the session after the policy was asked. */
  datatype Perm = Perm(allowed: bool, x: Session)

  function CheckPermission(cfg: Config, x: Session, e: FidEntry, mode: nat, env: Env): Perm {
    if !cfg.auth || !cfg.canCheckPerm || !cfg.canPath then Perm(true, x)
    else if !env.pathOk then Perm(false, x)
    else
      var id := FidIdentity(x, e);
      Perm(env.permits(id, e.node, mode), x.(log := Then(x.log, CheckPerm(e.fid, id))))
  }

  /** A node that is not the starting one is given back to the filesystem. */
  function Drop(cfg: Config, node: nat, start: nat, log: Log): Log {
    if node != start && cfg.canClunk then Then(log, FsClunk(node)) else log
  }

  function WalkAnswer(env: Env, i: nat): nat {
    if i < |env.walks| then env.walks[i] else 0
  }

  // ---------------------------------------------------------------- reads past the end

  /** The frame as a handler finds it that reads n bytes whatever the length says. */
  function Padded(msg: seq<byte>, n: nat, env: Env): (m: seq<byte>)
    ensures msg <= m && |m| == if |msg| >= n then |msg| else n
  {
    if |msg| >= n then msg else msg + seq<byte>(n - |msg|, i requires 0 <= i < n - |msg| => env.behind(|msg| + i))
  }

  /** n bytes taken from a text constant: its characters, its NUL, and what lies behind. */
  function Literal(text: seq<byte>, n: nat, env: Env): (r: seq<byte>)
    ensures |r| == n
  {
    seq<byte>(n, i requires 0 <= i < n => LiteralAt(text, i, env))
  }

  function LiteralAt(text: seq<byte>, i: nat, env: Env): byte {
    if i < |text| then text[i] else if i == |text| then 0 else env.behind(i)
  }

  // ---------------------------------------------------------------- Tversion

  function NegotiatedMsize(cfg: Config, offered: nat, mtu: int): nat {
    var m := if offered > cfg.maxMessage then cfg.maxMessage else offered;
    if mtu > 0 && mtu % MOD32 < m then mtu % MOD32 else m
  }

  /** The clunks of the first n entries. */
  function ResetClunks(cfg: Config, fids: seq<FidEntry>, n: nat, log: Log): Log
    requires n <= |fids|
  {
    if n == 0 then log
    else
      var l := ResetClunks(cfg, fids, n - 1, log);
      var e := fids[n - 1];
      if e.inUse && cfg.canClunk && e.node != 0 && !e.isAuth then Then(l, FsClunk(e.node)) else l
  }

  function ClearAll(fids: seq<FidEntry>): (r: seq<FidEntry>)
    ensures |r| == |fids|
    ensures forall k :: 0 <= k < |r| ==> r[k] == Cleared(fids[k])
  {
    seq(|fids|, k requires 0 <= k < |fids| => Cleared(fids[k]))
  }

  function ClearNames(names: seq<Uname>): (r: seq<Uname>)
    ensures |r| == |names|
    ensures forall k :: 0 <= k < |r| ==> r[k] == names[k].(refs := 0)
  {
    seq(|names|, k requires 0 <= k < |names| => names[k].(refs := 0))
  }

  function ClearAuths(auths: seq<AuthSlot>): (r: seq<AuthSlot>)
    ensures |r| == |auths|
    ensures forall k :: 0 <= k < |r| ==> r[k] == auths[k].(used := false)
  {
    seq(|auths|, k requires 0 <= k < |auths| => auths[k].(used := false))
  }

  /** The reset an accepted Tversion performs: a clunk of every live fid, then empty tables. */
  function ResetSession(cfg: Config, x: Session, msize: nat): Session {
    Session(ClearAll(x.fids), ClearNames(x.names), ClearAuths(x.auths), msize,
            ResetClunks(cfg, x.fids, |x.fids|, Then(x.log, Reset)))
  }

  datatype VersionOutcome = Refused(body: Body) | Accepted(msize: nat)

  function Negotiate(cfg: Config, msg: seq<byte>, env: Env): VersionOutcome {
    if |msg| < 13 || |msg| < 13 + U16(msg, 11) then Refused(Rerror(BadTversion))
    else
      var m := NegotiatedMsize(cfg, U32(msg, 7), env.mtu);
      var n := U16(msg, 11);
      if n < 6 || msg[13..19] != VERSION_9P2000 then Refused(Rversion(m, false)) else Accepted(m)
  }

  // ---------------------------------------------------------------- Tattach

  /** Node 0 when some component of the aname was not found. */
  datatype AnameWalk = AnameWalk(node: nat, log: Log)

  /** The loop over the components of an aname, the first of them number k. */
  function WalkAname(cfg: Config, env: Env, fid: nat, names: seq<seq<byte>>, k: nat, node: nat, log: Log): AnameWalk
    decreases |names|
  {
    if |names| == 0 then AnameWalk(node, log)
    else
      var log' := Drop(cfg, node, env.root, Then(log, FsWalk(fid, node, names[0])));
      var child := WalkAnswer(env, k);
      if child == 0 then AnameWalk(0, log') else WalkAname(cfg, env, fid, names[1..], k + 1, child, log')
  }

  datatype AttachAuth = Denied(ename: Ename) | Guest | Authentic(id: seq<byte>)

  /** A uname that runs past the frame is replaced by as many bytes of the default one. */
  function AttachUname(msg: seq<byte>, env: Env): seq<byte> {
    if |msg| < 17 then []
    else
      var n := U16(msg, 15);
      if |msg| >= 17 + n then msg[17..17 + n] else Literal(ANONYMOUS, n, env)
  }

  /** An afid is validated whenever one is presented; `authRequired` only decides about guests. */
  function AttachAuthority(cfg: Config, x: Session, afid: nat, uname: seq<byte>): AttachAuth {
    if afid != NOFID then
      var a := FindFid(x.fids, afid);
      if a < |x.fids| && x.fids[a].isAuth && AuthLive(x.auths, x.fids[a].authIdx)
         && x.auths[x.fids[a].authIdx].authenticated then
        var id := x.auths[x.fids[a].authIdx].identity;
        if |uname| > 0 && uname != id then Denied(UnameMismatch) else Authentic(id)
      else if cfg.auth && cfg.authRequired then Denied(AuthIncomplete)
      else Guest
    else if cfg.auth && cfg.authRequired then Denied(AuthRequired)
    else Guest
  }

  /** The aname is looked for behind the name that was interned, not behind the one received. */
  function AttachAname(msg: seq<byte>, unameLen: nat): seq<byte> {
    var o := 17 + unameLen;
    if o + 2 <= |msg| && o + 2 + U16(msg, o) <= |msg| then msg[o + 2..o + 2 + U16(msg, o)] else []
  }

  /** A fid bound to the root under an interned name. */
  function AttachRoot(x: Session, fid: nat, k: nat, uname: seq<byte>, authentic: bool, root: nat): Session
    requires k < |x.fids|
  {
    var x1 := AllocFid(x, fid, k);
    var n := Intern(x1.names, uname);
    SetFid(x1, k, x1.fids[k].(unameIdx := n.idx, authenticated := authentic, node := root)).(names := n.names)
  }

  /** Entry k, at the root, goes on to the subtree the aname names; it is given up when there is none. */
  function Descend(cfg: Config, x: Session, fid: nat, k: nat, aname: seq<byte>, env: Env): (d: Done)
    requires k < |x.fids|
    ensures Size(d.body) <= MAX_FIXED_REPLY && d.x.msize == x.msize && !d.body.Rread? && !d.body.Rversion?
  {
    if env.root == 0 then Fail(FreeFid(x, fid), CannotGetRoot)
    else
      var w := WalkAname(cfg, env, fid, Components(aname), 0, env.root, x.log);
      var x1 := x.(log := w.log);
      if w.node == 0 then Fail(FreeFid(x1, fid), AnameNotFound)
      else Done(SetFid(x1, k, x1.fids[k].(node := w.node)), Rattach(env.qid(w.node)))
  }

  function HandleTattach(cfg: Config, x: Session, msg: seq<byte>, env: Env): (d: Done)
    requires |msg| >= 15
    ensures Size(d.body) <= MAX_FIXED_REPLY && d.x.msize == x.msize && !d.body.Rread? && !d.body.Rversion?
  {
    var fid, afid, received := U32(msg, 7), U32(msg, 11), AttachUname(msg, env);
    var authority := AttachAuthority(cfg, x, afid, received);
    if authority.Denied? then Fail(x, authority.ename)
    else
      var uname := if authority.Authentic? then authority.id else received;
      var k := AllocAt(x.fids, fid);
      if k == |x.fids| then Fail(x, FidInUse)
      else
        var x1 := AttachRoot(x, fid, k, uname, authority.Authentic?, env.root);
        Descend(cfg, x1, fid, k, AttachAname(msg, |uname|), env)
  }

  // ---------------------------------------------------------------- Twalk

  datatype Walked =
    | BadFrame(log: Log)
    | Stopped(qids: seq<Qid>, log: Log)
    | Reached(node: nat, qids: seq<Qid>, log: Log)

  /** What stays the same while the elements of one Twalk are walked. */
  datatype WalkJob = WalkJob(cfg: Config, msg: seq<byte>, env: Env, fid: nat, start: nat, nw: nat)

  /** The frame ends before the string at `off` does. */
  predicate Cut(msg: seq<byte>, off: nat) { off + 2 > |msg| || off + 2 + U16(msg, off) > |msg| }

  function NameAt(msg: seq<byte>, off: nat): seq<byte>
    requires !Cut(msg, off)
  {
    msg[off + 2..off + 2 + U16(msg, off)]
  }

  /** The element loop: each name is read from the frame, walked, and the node before it let go. */
  function WalkNames(j: WalkJob, i: nat, off: nat, node: nat, qids: seq<Qid>, log: Log): (w: Walked)
    requires i <= j.nw
    ensures w.Stopped? ==> |w.qids| < |qids| + (j.nw - i)
    ensures w.Reached? ==> |w.qids| == |qids| + (j.nw - i)
    decreases j.nw - i
  {
    if i == j.nw then Reached(node, qids, log)
    else if Cut(j.msg, off) then BadFrame(Drop(j.cfg, node, j.start, log))
    else
      var next := WalkAnswer(j.env, i);
      var log' := Drop(j.cfg, node, j.start, Then(log, FsWalk(j.fid, node, NameAt(j.msg, off))));
      if next == 0 then Stopped(qids, log')
      else WalkNames(j, i + 1, off + 2 + U16(j.msg, off), next, qids + [j.env.qid(next)], log')
  }

  /** Entry k takes over the node, shares the username and inherits the authentication flag. */
  function Inherit(x: Session, from: FidEntry, k: nat, node: nat): Session
    requires k < |x.fids|
  {
    var e := x.fids[k].(node := node, authenticated := from.authenticated);
    if from.unameIdx != POOL_NONE then
      SetFid(x, k, e.(unameIdx := from.unameIdx)).(names := Retain(x.names, from.unameIdx))
    else SetFid(x, k, e)
  }

  function BindWalked(x: Session, from: FidEntry, newfid: nat, k: nat, node: nat): Session
    requires k < |x.fids|
  {
    Inherit(AllocFid(x, newfid, k), from, k, node)
  }

  function HandleTwalk(cfg: Config, x: Session, msg: seq<byte>, env: Env): (d: Done)
    requires |msg| >= 17
    ensures Size(d.body) <= MAX_FIXED_REPLY && d.x.msize == x.msize && !d.body.Rread? && !d.body.Rversion?
  {
    var fid, newfid, nw := U32(msg, 7), U32(msg, 11), U16(msg, 15);
    var i := FindFid(x.fids, fid);
    if i == |x.fids| then Fail(x, UnknownFid)
    else
      var e := x.fids[i];
      if e.isOpen then Fail(x, WalkOpenFid)
      else if nw > MAX_WELEM then Fail(x, TooManyNames)
      else
        var w := WalkNames(WalkJob(cfg, msg, env, fid, e.node, nw), 0, 17, e.node, [], Then(x.log, Walks(fid)));
        var x1 := x.(log := w.log);
        match w
        case BadFrame(_) => Fail(x1, MalformedWalk)
        case Stopped(qids, _) => if |qids| == 0 then Fail(x1, FileNotFound) else Done(x1, Rwalk(qids))
        case Reached(node, qids, _) =>
          var k := AllocAt(x.fids, newfid);
          if k == |x.fids| then Fail(x1.(log := Drop(cfg, node, e.node, x1.log)), CannotAllocNewfid)
          else Done(BindWalked(x1, e, newfid, k, node), Rwalk(qids))
  }

  // ---------------------------------------------------------------- Topen, Tcreate, Tstat, Twstat

  function Iounit(cfg: Config, msize: nat, mtu: int): nat {
    var m := if msize != 0 then msize else cfg.maxMessage;
    var eff := if mtu > 0 && mtu % MOD32 < m then mtu % MOD32 else m;
    if eff > 24 then eff - 24 else 0
  }

  function HandleTopen(cfg: Config, x: Session, msg: seq<byte>, env: Env): (d: Done)
    requires |msg| >= 12
    ensures Size(d.body) <= MAX_FIXED_REPLY && d.x.msize == x.msize && !d.body.Rread? && !d.body.Rversion?
  {
    var fid, mode := U32(msg, 7), msg[11];
    var i := FindFid(x.fids, fid);
    if i == |x.fids| || x.fids[i].node == 0 then Fail(x, UnknownFid)
    else
      var e := x.fids[i];
      if e.isOpen then Fail(x, AlreadyOpen)
      else
        var p := CheckPermission(cfg, x, e, mode, env);
        var x1 := p.x;
        if !p.allowed then Fail(x1, PermissionDenied)
        else if env.rc.Err? then Fail(x1, ErrnoEname(env.rc.e, OpenFailed))
        else
          var iounit := Iounit(cfg, x.msize, env.mtu);
          Done(SetFid(x1, i, e.(isOpen := true, openMode := mode, iounit := iounit))
                 .(log := Then(x1.log, Opened(fid, mode))),
               Ropen(env.qid(e.node), iounit))
  }

  function HandleTcreate(cfg: Config, x: Session, msg: seq<byte>, env: Env): (d: Done)
    ensures Size(d.body) <= MAX_FIXED_REPLY && d.x.msize == x.msize && !d.body.Rread? && !d.body.Rversion?
  {
    if |msg| < 13 || |msg| < 13 + U16(msg, 11) + 5 then Fail(x, MalformedTcreate)
    else
      var fid, mode := U32(msg, 7), msg[17 + U16(msg, 11)];
      var i := FindFid(x.fids, fid);
      if i == |x.fids| || x.fids[i].node == 0 then Fail(x, UnknownFid)
      else if !cfg.canCreate then Fail(x, CreateNotSupported)
      else
        var e := x.fids[i];
        var p := CheckPermission(cfg, x, e, OWRITE, env);
        var x1 := p.x;
        if !p.allowed then Fail(x1, PermissionDenied)
        else
          var x2 := x1.(log := Then(x1.log, FsCreate(fid, FidIdentity(x, e))));
          if env.rc.Err? then Fail(x2, ErrnoEname(env.rc.e, CreateFailed))
          else if env.created == 0 then Fail(x2, CreateFailed)
          else
            var body := Rcreate(env.qid(env.created), 0);
            Done(SetFid(x2, i, e.(node := env.created, iounit := 0, isOpen := true, openMode := mode))
                   .(log := Then(x2.log, Opened(fid, mode))),
                 if Size(body) <= cfg.maxMessage then body else Rerror(RcreateBuildFailed))
  }

  function HandleTstat(cfg: Config, x: Session, msg: seq<byte>, env: Env): (d: Done)
    requires |msg| >= 11
    ensures d.x == x && !d.body.Rread? && !d.body.Rversion?
            && (Size(d.body) <= MAX_FIXED_REPLY || Size(d.body) <= cfg.maxMessage)
  {
    var i := FindFid(x.fids, U32(msg, 7));
    if i == |x.fids| || x.fids[i].node == 0 then Fail(x, UnknownFid)
    else if env.rc.Err? then Fail(x, ErrnoEname(env.rc.e, StatFailed))
    else Done(x, if 9 + env.rc.n <= cfg.maxMessage then Rstat(env.rc.n) else Rerror(RstatBuildFailed))
  }

  function HandleTwstat(x: Session, msg: seq<byte>): (d: Done)
    requires |msg| >= 11
    ensures d.x == x && d.body.Rerror? && Size(d.body) <= MAX_FIXED_REPLY
  {
    var i := FindFid(x.fids, U32(msg, 7));
    Fail(x, if i == |x.fids| || x.fids[i].node == 0 then UnknownFid else WstatNotSupported)
  }

  // ---------------------------------------------------------------- Tauth and the auth fid

  /** Entry k becomes an auth fid with a fresh challenge for the claimed identity. */
  function BeginAuth(x: Session, k: nat, a: nat, identity: seq<byte>, env: Env): Session
    requires k < |x.fids| && a < |x.auths|
  {
    SetFid(x, k, x.fids[k].(isAuth := true, authIdx := a))
      .(auths := x.auths[a := AuthSlot(true, identity, env.challenge, env.now, false, false)])
  }

  /** A uname that runs past the frame is replaced by as many bytes of an empty text. */
  function AuthUname(msg: seq<byte>, env: Env): seq<byte> {
    if |msg| <= 13 then []
    else
      var n := U16(msg, 11);
      if |msg| >= 13 + n then msg[13..13 + n] else Literal([], n, env)
  }

  function HandleTauth(cfg: Config, x: Session, msg: seq<byte>, env: Env): (d: Done)
    requires |msg| >= 11
    ensures Size(d.body) <= MAX_FIXED_REPLY && d.x.msize == x.msize && !d.body.Rread? && !d.body.Rversion?
  {
    var afid, uname := U32(msg, 7), AuthUname(msg, env);
    if !cfg.auth then Fail(x, AuthNotRequired)
    else if |uname| == 0 || |uname| >= NAME_SIZE then Fail(x, InvalidIdentity)
    else
      var k := AllocAt(x.fids, afid);
      if k == |x.fids| then Fail(x, CannotAllocAfid)
      else
        var x1 := AllocFid(x, afid, k);
        var a := FreeAuth(x1.auths);
        if a == |x1.auths| then Fail(FreeFid(x1, afid), TooManyAuths)
        else
          Done(BeginAuth(x1, k, a, CStr(uname), env), Rauth(Qid(8, 0, afid)))
  }

  function AuthRead(x: Session, e: FidEntry, offset: nat, count: nat, env: Env): (d: Done)
    ensures Size(d.body) <= MAX_FIXED_REPLY && d.x.msize == x.msize && !d.body.Rversion?
  {
    if !AuthLive(x.auths, e.authIdx) then Fail(x, InvalidAuthState)
    else
      var a := x.auths[e.authIdx];
      if (env.now - a.time) % MOD64 > CHALLENGE_LIFE then Fail(x, AuthTimeout)
      else
        var n := if offset < |a.challenge| then |a.challenge| - offset else 0;
        var m := if n > count then count else n;
        Done(x.(auths := x.auths[e.authIdx := a.(issued := true)]),
             Rread(if n == 0 then [] else a.challenge[offset..offset + m]))
  }

  function Accept(x: Session, a: nat): Session
    requires a < |x.auths|
  {
    x.(auths := x.auths[a := x.auths[a].(authenticated := true)], log := Then(x.log, Verified(x.auths[a].identity)))
  }

  /** Entry i gives up the name it holds, if any, and takes another. */
  function Rename(x: Session, i: nat, name: seq<byte>): Session
    requires i < |x.fids|
  {
    var e := x.fids[i];
    var n := Intern(if e.unameIdx != POOL_NONE then Release(x.names, e.unameIdx) else x.names, name);
    SetFid(x, i, e.(unameIdx := n.idx)).(names := n.names)
  }

  /** A response is a signature of 64 bytes and a public key. */
  predicate Verifies(env: Env, a: AuthSlot, data: seq<byte>)
    requires |data| >= 64
  {
    env.verifies(a.identity, data[64..], data[..64], a.challenge)
  }

  /** The handshake's last step: the application's verdict on the claimed identity. */
  function AuthWrite(cfg: Config, x: Session, i: nat, data: seq<byte>, env: Env): (d: Done)
    requires i < |x.fids|
    ensures Size(d.body) <= MAX_FIXED_REPLY && d.x.msize == x.msize && !d.body.Rread? && !d.body.Rversion?
  {
    var e := x.fids[i];
    if !AuthLive(x.auths, e.authIdx) then Fail(x, AuthStateLost)
    else
      var a := x.auths[e.authIdx];
      if !a.issued then Fail(x, ReadChallengeFirst)
      else if (env.now - a.time) % MOD64 > CHALLENGE_LIFE then Fail(x, AuthTimeout)
      else if |data| < 2 then Fail(x, InvalidAuthResponse)
      else if !cfg.auth || !cfg.canVerify then Fail(x, AuthNotConfigured)
      else if |data| != 129 && |data| != 96 then Fail(x, InvalidAuthSize)
      else if !Verifies(env, a, data) then Fail(x, AuthFailed)
      else
        Done(Rename(Accept(x, e.authIdx), i, a.identity),
             Rwrite(|data|))
  }

  // ---------------------------------------------------------------- Twrite, Tremove, Tclunk

  function HandleTwrite(cfg: Config, x: Session, msg: seq<byte>, env: Env): (d: Done)
    ensures Size(d.body) <= MAX_FIXED_REPLY && d.x.msize == x.msize && !d.body.Rread? && !d.body.Rversion?
  {
    if |msg| < 23 || |msg| - 23 < U32(msg, 19) then Fail(x, MalformedTwrite)
    else
      var fid, count := U32(msg, 7), U32(msg, 19);
      var i := FindFid(x.fids, fid);
      if i == |x.fids| then Fail(x, UnknownFid)
      else
        var e := x.fids[i];
        if e.isAuth then AuthWrite(cfg, x, i, msg[23..23 + count], env)
        else if e.node == 0 then Fail(x, UnknownFid)
        else if !e.isOpen then Fail(x, NotOpen)
        else if e.openMode % 4 == OREAD || e.openMode % 4 == OEXEC then Fail(x, NotOpenForWriting)
        else if !cfg.canWrite then Fail(x, WriteNotSupported)
        else
          var x1 := x.(log := Then(x.log, FsWrite(fid, FidIdentity(x, e))));
          if env.rc.Err? then Fail(x1, ErrnoEname(env.rc.e, WriteFailed))
          else Done(x1, if 11 <= cfg.maxMessage then Rwrite(env.rc.n) else Rerror(RwriteBuildFailed))
  }

  function HandleTremove(cfg: Config, x: Session, msg: seq<byte>, env: Env): (d: Done)
    requires |msg| >= 11
    ensures Size(d.body) <= MAX_FIXED_REPLY && d.x.msize == x.msize && !d.body.Rread? && !d.body.Rversion?
  {
    var fid := U32(msg, 7);
    var i := FindFid(x.fids, fid);
    if i == |x.fids| || x.fids[i].node == 0 then Fail(x, UnknownFid)
    else if !cfg.canRemove then Fail(x, RemoveNotSupported)
    else
      var p := CheckPermission(cfg, x, x.fids[i], OWRITE, env);
      var x1 := p.x;
      if !p.allowed then Fail(x1, PermissionDenied)
      else if env.rc.Err? then Fail(x1, ErrnoEname(env.rc.e, RemoveFailed))
      else Done(FreeFid(x1, fid), Rremove)
  }

  function ClunkFid(cfg: Config, x: Session, fid: nat): Session {
    var i := FindFid(x.fids, fid);
    if i == |x.fids| then x
    else
      var node := x.fids[i].node;
      FreeFid(if cfg.canClunk && node != 0 then x.(log := Then(x.log, FsClunk(node))) else x, fid)
  }
}
