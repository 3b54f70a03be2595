/**
 * The server as an object: tables that its handlers update in place, step by step. Every method is
 * tied to the function of Session or Dispatch that says what it does to the whole state.
 */
module Server {
  import opened Bytes
  import opened PathNames
  import opened Traces
  import opened Session
  import opened Dispatch
  import opened ServerInvariant

  class Server {
    const cfg: Config
    var fids: seq<FidEntry>
    var names: seq<Uname>
    var auths: seq<AuthSlot>
    var msize: nat
    var pend: seq<PendingRead>
    var pendGen: nat
    /** What was handed to the transport, and the record the theorems speak about: no branch looks at it. */
    var sent: Trace<Reply>
    var log: Log
    var reqs: seq<nat>
    var dropped: Trace<nat>
    var issued: set<Handle>

    function Tables(): Session
      reads this
    {
      Session(fids, names, auths, msize, log)
    }

    function View(): State
      reads this
    {
      State(Tables(), pend, pendGen, reqs, sent, dropped, issued)
    }

    /** The invariant of the server, on the tables as they stand. */
    ghost predicate Valid()
      reads this
    {
      ConfigOk(cfg) && ServerOk(cfg, View())
    }

    /** ninep_server_init: zeroed tables. */
    constructor (cfg: Config)
      ensures this.cfg == cfg && View() == Initial(cfg) && (ConfigOk(cfg) ==> Valid())
    {
      if ConfigOk(cfg) {
        InitialOk(cfg);
      }
      this.cfg := cfg;
      fids := seq(cfg.maxFids, _ => FidEntry(false, 0, 0, 0, 0, 0, false, false, false, 0));
      names := seq(cfg.unamePool, _ => Uname(seq(NAME_SIZE, _ => 0), 0));
      auths := seq(cfg.authPool, _ => AuthSlot(false, [], seq(CHALLENGE_SIZE, _ => 0), 0, false, false));
      msize := cfg.maxMessage;
      pend := seq(cfg.maxPending, _ => PendingRead(false, 0, 0, 0, 0, 0));
      pendGen := 0;
      log, reqs, sent, dropped, issued := Start, [], Start, Start, {};
    }

    // -------------------------------------------------------------- tables

    method Find(fid: nat) returns (i: nat)
      ensures i == FindFid(fids, fid)
    {
      i := 0;
      while i < |fids| && !(fids[i].inUse && fids[i].fid == fid)
        invariant i <= |fids| && forall k :: 0 <= k < i ==> !(fids[k].inUse && fids[k].fid == fid)
      {
        i := i + 1;
      }
    }

    /** alloc_fid; |fids| when the fid is taken or the table is full. */
    method Alloc(fid: nat) returns (k: nat)
      modifies this
      ensures k == AllocAt(old(fids), fid)
      ensures View() == old(View()).(x := if k < old(|fids|) then AllocFid(old(Tables()), fid, k) else old(Tables()))
    {
      var found := Find(fid);
      if found < |fids| {
        return |fids|;
      }
      k := 0;
      while k < |fids| && fids[k].inUse
        invariant k <= |fids| && forall j :: 0 <= j < k ==> fids[j].inUse
      {
        k := k + 1;
      }
      if k < |fids| {
        fids := fids[k := FidEntry(true, fid, 0, 0, POOL_NONE, POOL_NONE, false, fids[k].authenticated, false, 0)];
        log := Then(log, Bound(fid));
      }
    }

    method ReleaseName(idx: nat)
      modifies this`names
      ensures names == Release(old(names), idx)
    {
      if idx < |names| && names[idx].refs > 0 {
        names := names[idx := names[idx].(refs := names[idx].refs - 1)];
      }
    }

    method FreeAuthState(idx: nat)
      modifies this`auths
      ensures auths == AuthFree(old(auths), idx)
    {
      if idx < |auths| {
        auths := auths[idx := auths[idx].(used := false)];
      }
    }

    /** Give back what entry i holds, then empty it. */
    method Vacate(i: nat)
      requires i < |fids|
      modifies this`fids, this`names, this`auths
      ensures Tables() == ReleaseEntry(old(Tables()), i)
    {
      var e := fids[i];
      if e.unameIdx != POOL_NONE {
        ReleaseName(e.unameIdx);
      }
      if e.authIdx != POOL_NONE {
        FreeAuthState(e.authIdx);
      }
      fids := fids[i := e.(inUse := false, node := 0, unameIdx := POOL_NONE, authIdx := POOL_NONE)];
    }

    /** free_fid. */
    method Free(fid: nat)
      modifies this`fids, this`names, this`auths
      ensures Tables() == FreeFid(old(Tables()), fid)
    {
      var i := Find(fid);
      if i < |fids| {
        Vacate(i);
      }
    }

    /** uname_intern: an entry that already holds the name, or a free one, or POOL_NONE. */
    method InternName(name: seq<byte>) returns (idx: nat)
      modifies this`names
      ensures Interned(idx, names) == Intern(old(names), name)
    {
      var n := if |name| >= NAME_SIZE then name[..NAME_SIZE - 1] else name;
      idx := 0;
      while idx < |names| && !(names[idx].refs > 0 && SameUpTo(names[idx].text, n, |n|) && names[idx].text[|n|] == 0)
        invariant idx <= |names| && forall k :: 0 <= k < idx ==> !Holds(names[k], n)
      {
        idx := idx + 1;
      }
      assert idx == FindName(names, n);
      if idx < |names| {
        names := names[idx := names[idx].(refs := (names[idx].refs + 1) % 256)];
        return;
      }
      idx := 0;
      while idx < |names| && names[idx].refs != 0
        invariant idx <= |names| && forall k :: 0 <= k < idx ==> names[k].refs != 0
      {
        idx := idx + 1;
      }
      if idx < |names| {
        names := names[idx := Uname(n + [0] + names[idx].text[|n| + 1..], 1)];
      } else {
        idx := POOL_NONE;
      }
    }

    /** auth_alloc; |auths| when all are used. */
    method FindAuth() returns (a: nat)
      ensures a == FreeAuth(auths)
    {
      a := 0;
      while a < |auths| && auths[a].used
        invariant a <= |auths| && forall k :: 0 <= k < a ==> auths[k].used
      {
        a := a + 1;
      }
    }

    method Identity(e: FidEntry) returns (id: seq<byte>)
      ensures id == FidIdentity(Tables(), e)
    {
      id := [];
      if e.authenticated && e.unameIdx != POOL_NONE {
        if e.unameIdx < |names| && names[e.unameIdx].refs > 0 {
          id := CStr(names[e.unameIdx].text);
        }
      }
    }

    /** check_perm_or_deny, without the reply. */
    method MayDo(e: FidEntry, mode: nat, env: Env) returns (ok: bool)
      modifies this`log
      ensures CheckPermission(cfg, old(Tables()), e, mode, env) == Perm(ok, Tables())
    {
      if !cfg.auth || !cfg.canCheckPerm || !cfg.canPath {
        return true;
      }
      if !env.pathOk {
        return false;
      }
      var id := Identity(e);
      log := Then(log, CheckPerm(e.fid, id));
      ok := env.permits(id, e.node, mode);
    }

    // -------------------------------------------------------------- replies and parked reads

    /** Build a reply and hand it to the transport, if the buffer holds it. */
    method Send(tag: nat, body: Body, rid: nat)
      modifies this`sent
      ensures View() == Post(cfg, old(View()), rid, tag, body)
    {
      if Size(body) <= cfg.maxMessage {
        sent := Then(sent, Reply(rid, tag, body));
      }
    }

    /** The reply to the request at hand. */
    method Answer(tag: nat, body: Body)
      requires |reqs| > 0
      modifies this`sent
      ensures View() == Respond(cfg, old(View()), tag, body)
    {
      Send(tag, body, |reqs| - 1);
    }

    /** pending_read_alloc; |pend| when the table is full. */
    method ParkRead(tag: nat, fid: nat, count: nat) returns (slot: nat)
      requires |reqs| > 0
      modifies this`pend, this`pendGen
      ensures slot == FreeSlot(old(pend))
      ensures View() == if slot < old(|pend|) then Park(old(View()), slot, tag, fid, count) else old(View())
    {
      slot := 0;
      while slot < |pend| && pend[slot].inUse
        invariant slot <= |pend| && forall k :: 0 <= k < slot ==> pend[k].inUse
      {
        slot := slot + 1;
      }
      if slot < |pend| {
        pendGen := pendGen + 1;
        pend := pend[slot := PendingRead(true, tag, fid, count, pendGen % MOD32, |reqs| - 1)];
      }
    }

    /** pending_read_cancel on every parked read the selector picks. */
    method CancelReads(sel: Selector)
      modifies this`pend, this`sent
      ensures View() == Cancel(cfg, old(View()), sel)
    {
      var i := 0;
      while i < |pend|
        invariant i <= |pend| && Cancel(cfg, old(View()), sel) == CancelFrom(cfg, View(), sel, i)
        decreases |pend| - i
      {
        var p := pend[i];
        if Selects(sel, p) {
          Send(p.tag, Rread([]), p.rid);
          pend := pend[i := p.(inUse := false)];
        }
        i := i + 1;
      }
    }

    // -------------------------------------------------------------- Tversion

    /** The loops of an accepted Tversion over the parked reads and the fids. */
    method DropAllParked()
      modifies this`pend, this`dropped
      ensures View() == DropParked(old(View()))
    {
      var i := 0;
      while i < |pend|
        invariant i <= |pend| == old(|pend|)
        invariant forall k :: 0 <= k < |pend| ==>
                    pend[k] == if k < i then old(pend)[k].(inUse := false) else old(pend)[k]
        invariant dropped == DropRids(old(pend), i, old(dropped))
      {
        if pend[i].inUse {
          dropped := Then(dropped, pend[i].rid);
        }
        pend := pend[i := pend[i].(inUse := false)];
        i := i + 1;
      }
      assert pend == FreeSlots(old(pend));
    }

    /** Clunk the node of entry i, give back what it holds of the pools, and empty it. */
    method ResetEntry(i: nat)
      requires i < |fids|
      modifies this`fids, this`names, this`auths, this`log
      ensures fids == old(fids)[i := Cleared(old(fids)[i])]
      ensures ClearNames(names) == ClearNames(old(names)) && ClearAuths(auths) == ClearAuths(old(auths))
      ensures var e := old(fids)[i];
              log == if e.inUse && cfg.canClunk && e.node != 0 && !e.isAuth then Then(old(log), FsClunk(e.node))
                     else old(log)
    {
      var e := fids[i];
      if e.inUse {
        if cfg.canClunk && e.node != 0 && !e.isAuth {
          log := Then(log, FsClunk(e.node));
        }
        if e.unameIdx != POOL_NONE {
          ReleaseName(e.unameIdx);
        }
        if e.authIdx != POOL_NONE {
          FreeAuthState(e.authIdx);
        }
      }
      fids := fids[i := e.(inUse := false, node := 0, unameIdx := POOL_NONE, authIdx := POOL_NONE)];
      assert ClearNames(names) == ClearNames(old(names));
      assert ClearAuths(auths) == ClearAuths(old(auths));
    }

    method ResetTables(size: nat)
      modifies this`fids, this`names, this`auths, this`msize, this`log
      ensures Tables() == ResetSession(cfg, old(Tables()), size)
    {
      log := Then(log, Reset);
      var i := 0;
      while i < |fids|
        invariant i <= |fids| == old(|fids|)
        invariant forall k :: 0 <= k < |fids| ==> fids[k] == if k < i then Cleared(old(fids)[k]) else old(fids)[k]
        invariant ClearNames(names) == ClearNames(old(names)) && ClearAuths(auths) == ClearAuths(old(auths))
        invariant log == ResetClunks(cfg, old(fids), i, Then(old(log), Reset))
      {
        ResetEntry(i);
        i := i + 1;
      }
      assert fids == ClearAll(old(fids));
      names, auths, msize := ClearNames(names), ClearAuths(auths), size;
    }

    method Tversion(msg: seq<byte>, env: Env)
      requires |msg| >= 7 && |reqs| > 0
      modifies this
      ensures View() == HandleTversion(cfg, old(View()), msg, env)
    {
      var tag := U16(msg, 5);
      if |msg| < 13 || |msg| < 13 + U16(msg, 11) {
        Answer(tag, Rerror(BadTversion));
        return;
      }
      var size := U32(msg, 7);
      if size > cfg.maxMessage {
        size := cfg.maxMessage;
      }
      if env.mtu > 0 && env.mtu % MOD32 < size {
        size := env.mtu % MOD32;
      }
      if U16(msg, 11) < 6 || msg[13..19] != VERSION_9P2000 {
        Answer(tag, Rversion(size, false));
        return;
      }
      DropAllParked();
      ResetTables(size);
      Answer(tag, Rversion(size, true));
    }

    // -------------------------------------------------------------- Tattach

    /** The identity an attach is made under, or why it is refused. */
    method Authority(afid: nat, uname: seq<byte>) returns (a: AttachAuth)
      ensures a == AttachAuthority(cfg, Tables(), afid, uname)
    {
      if afid == NOFID {
        return if cfg.auth && cfg.authRequired then Denied(AuthRequired) else Guest;
      }
      var i := Find(afid);
      if i == |fids| || !fids[i].isAuth || !(fids[i].authIdx < |auths| && auths[fids[i].authIdx].used)
         || !auths[fids[i].authIdx].authenticated {
        return if cfg.auth && cfg.authRequired then Denied(AuthIncomplete) else Guest;
      }
      var id := auths[fids[i].authIdx].identity;
      a := if |uname| > 0 && uname != id then Denied(UnameMismatch) else Authentic(id);
    }

    /** The aname loop: from the root to the named subtree, node 0 when a component is missing. */
    method WalkToAname(fid: nat, aname: seq<byte>, env: Env) returns (node: nat)
      modifies this`log
      ensures AnameWalk(node, log) == WalkAname(cfg, env, fid, Components(aname), 0, env.root, old(log))
    {
      node := env.root;
      var p, k := 0, 0;
      ghost var left := Components(aname);
      ghost var goal := WalkAname(cfg, env, fid, left, 0, node, log);
      assert aname[0..] == aname;
      if |aname| > 0 && aname[0] == SLASH {
        p := 1;
      }
      while p < |aname|
        invariant p <= |aname| && left == Components(aname[p..])
        invariant goal == WalkAname(cfg, env, fid, left, k, node, log)
        decreases |aname| - p
      {
        var slash, next := NextName(aname, p);
        if slash > p {
          log := Then(log, FsWalk(fid, node, aname[p..slash]));
          var child := if k < |env.walks| then env.walks[k] else 0;
          if node != env.root && cfg.canClunk {
            log := Then(log, FsClunk(node));
          }
          node, k, left := child, k + 1, left[1..];
          if child == 0 {
            return;
          }
        }
        p := next;
      }
    }

    /** The first slash at or behind p, or the end, and where the next name begins. */
    static method NextName(s: seq<byte>, p: nat) returns (q: nat, next: nat)
      requires p < |s|
      ensures p <= q <= |s| && p < next <= |s|
      ensures Components(s[p..]) == (if q > p then [s[p..q]] else []) + Components(s[next..])
    {
      q := p;
      while q < |s| && s[q] != SLASH
        invariant p <= q <= |s| && forall k :: p <= k < q ==> s[k] != SLASH
      {
        q := q + 1;
      }
      next := if q < |s| then q + 1 else |s|;
      SlashAtIs(s[p..], q - p);
      assert s[p..][..q - p] == s[p..q] && s[p..][q - p..] == s[q..];
      if q < |s| {
        assert s[q..][1..] == s[next..];
      }
    }

    /** A fresh entry for fid, under an interned name, at the root; |fids| when there is none. */
    method BindRoot(fid: nat, uname: seq<byte>, authentic: bool, root: nat) returns (k: nat)
      modifies this
      ensures k == AllocAt(old(fids), fid) && |fids| == old(|fids|)
      ensures View() == old(View()).(x := if k < |fids| then AttachRoot(old(Tables()), fid, k, uname, authentic, root)
                                     else old(Tables()))
    {
      k := Alloc(fid);
      if k < |fids| {
        var idx := InternName(uname);
        fids := fids[k := fids[k].(unameIdx := idx, authenticated := authentic, node := root)];
      }
    }

    /** From the root to the subtree the aname names; the entry is given up when there is none. */
    method GoDown(fid: nat, k: nat, aname: seq<byte>, env: Env) returns (body: Body)
      requires k < |fids|
      modifies this`fids, this`names, this`auths, this`log
      ensures Done(Tables(), body) == Descend(cfg, old(Tables()), fid, k, aname, env)
    {
      if env.root == 0 {
        Free(fid);
        return Rerror(CannotGetRoot);
      }
      var node := WalkToAname(fid, aname, env);
      if node == 0 {
        Free(fid);
        return Rerror(AnameNotFound);
      }
      fids := fids[k := fids[k].(node := node)];
      body := Rattach(env.qid(node));
    }

    /** The uname of a Tattach, or what stands in for it. */
    static method ReceivedName(msg: seq<byte>, env: Env) returns (uname: seq<byte>)
      ensures uname == AttachUname(msg, env)
    {
      uname := [];
      if |msg| >= 17 {
        var n := U16(msg, 15);
        uname := if |msg| >= 17 + n then msg[17..17 + n] else Literal(ANONYMOUS, n, env);
      }
    }

    /** Everything handle_tattach does before it replies. */
    method Attach(msg: seq<byte>, env: Env) returns (body: Body)
      requires |msg| >= 15
      modifies this
      ensures View() == old(View()).(x := Tables())
      ensures Done(Tables(), body) == HandleTattach(cfg, old(Tables()), msg, env)
    {
      var fid := U32(msg, 7);
      var uname := ReceivedName(msg, env);
      var a := Authority(U32(msg, 11), uname);
      if a.Denied? {
        return Rerror(a.ename);
      }
      if a.Authentic? {
        uname := a.id;
      }
      var k := BindRoot(fid, uname, a.Authentic?, env.root);
      if k == |fids| {
        return Rerror(FidInUse);
      }
      body := GoDown(fid, k, AttachAname(msg, |uname|), env);
    }

    method Tattach(msg: seq<byte>, env: Env)
      requires |reqs| > 0 && |msg| >= 7
      modifies this
      ensures View() == Finish(cfg, old(View()), U16(msg, 5),
                               HandleTattach(cfg, old(Tables()), Padded(msg, 15, env), env))
    {
      var body := Attach(Padded(msg, 15, env), env);
      Answer(U16(msg, 5), body);
    }

    // -------------------------------------------------------------- Twalk

    /** A new entry for newfid takes over the node and what it inherits from entry `from`. */
    method Derive(from: FidEntry, newfid: nat, node: nat) returns (k: nat)
      modifies this
      ensures k == AllocAt(old(fids), newfid)
      ensures View() == old(View()).(x := if k < old(|fids|) then BindWalked(old(Tables()), from, newfid, k, node)
                                     else old(Tables()))
    {
      k := Alloc(newfid);
      if k < |fids| {
        var e := fids[k].(node := node, authenticated := from.authenticated);
        if from.unameIdx != POOL_NONE {
          e := e.(unameIdx := from.unameIdx);
          if from.unameIdx < |names| {
            names := names[from.unameIdx := names[from.unameIdx].(refs := (names[from.unameIdx].refs + 1) % 256)];
          }
        }
        fids := fids[k := e];
      }
    }

    /** The element loop of handle_twalk. */
    method WalkElements(j: WalkJob) returns (w: Walked)
      requires j.cfg == cfg
      modifies this`log
      ensures w == WalkNames(j, 0, 17, j.start, [], old(log)) && log == w.log
    {
      var i: nat, off: nat, node, qids := 0, 17, j.start, [];
      while i < j.nw
        invariant i <= j.nw && WalkNames(j, 0, 17, j.start, [], old(log)) == WalkNames(j, i, off, node, qids, log)
      {
        if off + 2 > |j.msg| || off + 2 + U16(j.msg, off) > |j.msg| {
          LetGo(node, j.start);
          return BadFrame(log);
        }
        var name := j.msg[off + 2..off + 2 + U16(j.msg, off)];
        off := off + 2 + U16(j.msg, off);
        log := Then(log, FsWalk(j.fid, node, name));
        var next := if i < |j.env.walks| then j.env.walks[i] else 0;
        LetGo(node, j.start);
        if next == 0 {
          return Stopped(qids, log);
        }
        node := next;
        qids := qids + [j.env.qid(node)];
        i := i + 1;
      }
      w := Reached(node, qids, log);
    }

    method LetGo(node: nat, start: nat)
      modifies this`log
      ensures log == Drop(cfg, node, start, old(log))
    {
      if node != start && cfg.canClunk {
        log := Then(log, FsClunk(node));
      }
    }

    method Twalk(msg: seq<byte>, env: Env)
      requires |reqs| > 0 && |msg| >= 7
      modifies this
      ensures View() == Finish(cfg, old(View()), U16(msg, 5),
                               HandleTwalk(cfg, old(Tables()), Padded(msg, 17, env), env))
    {
      var m, tag := Padded(msg, 17, env), U16(msg, 5);
      var fid, newfid, nw := U32(m, 7), U32(m, 11), U16(m, 15);
      var i := Find(fid);
      if i == |fids| {
        Answer(tag, Rerror(UnknownFid));
        return;
      }
      var e := fids[i];
      if e.isOpen {
        Answer(tag, Rerror(WalkOpenFid));
        return;
      }
      if nw > MAX_WELEM {
        Answer(tag, Rerror(TooManyNames));
        return;
      }
      log := Then(log, Walks(fid));
      var w := WalkElements(WalkJob(cfg, m, env, fid, e.node, nw));
      match w
      case BadFrame(_) => Answer(tag, Rerror(MalformedWalk));
      case Stopped(qids, _) =>
        if |qids| == 0 {
          Answer(tag, Rerror(FileNotFound));
        } else {
          Answer(tag, Rwalk(qids));
        }
      case Reached(node, qids, _) =>
        var k := Derive(e, newfid, node);
        if k == |fids| {
          LetGo(node, e.node);
          Answer(tag, Rerror(CannotAllocNewfid));
        } else {
          Answer(tag, Rwalk(qids));
        }
    }

    // -------------------------------------------------------------- Topen, Tcreate, Tstat, Twstat

    /** Everything handle_topen does before it replies. */
    method Open(msg: seq<byte>, env: Env) returns (body: Body)
      requires |msg| >= 12
      modifies this`fids, this`log
      ensures Done(Tables(), body) == HandleTopen(cfg, old(Tables()), msg, env)
    {
      var fid, mode := U32(msg, 7), msg[11];
      var i := Find(fid);
      if i == |fids| || fids[i].node == 0 {
        return Rerror(UnknownFid);
      }
      var e := fids[i];
      if e.isOpen {
        return Rerror(AlreadyOpen);
      }
      var ok := MayDo(e, mode, env);
      if !ok {
        return Rerror(PermissionDenied);
      }
      if env.rc.Err? {
        return Rerror(ErrnoEname(env.rc.e, OpenFailed));
      }
      var eff := if msize != 0 then msize else cfg.maxMessage;
      if env.mtu > 0 && env.mtu % MOD32 < eff {
        eff := env.mtu % MOD32;
      }
      var iounit := if eff > 24 then eff - 24 else 0;
      fids := fids[i := e.(isOpen := true, openMode := mode, iounit := iounit)];
      log := Then(log, Opened(fid, mode));
      body := Ropen(env.qid(e.node), iounit);
    }

    method Topen(msg: seq<byte>, env: Env)
      requires |reqs| > 0 && |msg| >= 7
      modifies this
      ensures View() == Finish(cfg, old(View()), U16(msg, 5),
                               HandleTopen(cfg, old(Tables()), Padded(msg, 12, env), env))
    {
      var body := Open(Padded(msg, 12, env), env);
      Answer(U16(msg, 5), body);
    }

    /** Everything handle_tcreate does before it replies. */
    method Create(msg: seq<byte>, env: Env) returns (body: Body)
      modifies this`fids, this`log
      ensures Done(Tables(), body) == HandleTcreate(cfg, old(Tables()), msg, env)
    {
      if |msg| < 13 || |msg| < 13 + U16(msg, 11) + 5 {
        return Rerror(MalformedTcreate);
      }
      var fid, mode := U32(msg, 7), msg[17 + U16(msg, 11)];
      var i := Find(fid);
      if i == |fids| || fids[i].node == 0 {
        return Rerror(UnknownFid);
      }
      if !cfg.canCreate {
        return Rerror(CreateNotSupported);
      }
      var e := fids[i];
      var ok := MayDo(e, OWRITE, env);
      if !ok {
        return Rerror(PermissionDenied);
      }
      var id := Identity(e);
      log := Then(log, FsCreate(fid, id));
      if env.rc.Err? {
        return Rerror(ErrnoEname(env.rc.e, CreateFailed));
      }
      if env.created == 0 {
        return Rerror(CreateFailed);
      }
      fids := fids[i := e.(node := env.created, iounit := 0, isOpen := true, openMode := mode)];
      log := Then(log, Opened(fid, mode));
      body := Rcreate(env.qid(env.created), 0);
      if Size(body) > cfg.maxMessage {
        body := Rerror(RcreateBuildFailed);
      }
    }

    method Tcreate(msg: seq<byte>, env: Env)
      requires |reqs| > 0 && |msg| >= 7
      modifies this
      ensures View() == Finish(cfg, old(View()), U16(msg, 5), HandleTcreate(cfg, old(Tables()), msg, env))
    {
      var body := Create(msg, env);
      Answer(U16(msg, 5), body);
    }

    method Tstat(msg: seq<byte>, env: Env)
      requires |reqs| > 0 && |msg| >= 7
      modifies this`sent
      ensures View() == Finish(cfg, old(View()), U16(msg, 5),
                               HandleTstat(cfg, old(Tables()), Padded(msg, 11, env), env))
    {
      var tag := U16(msg, 5);
      var i := Find(U32(Padded(msg, 11, env), 7));
      if i == |fids| || fids[i].node == 0 {
        Answer(tag, Rerror(UnknownFid));
      } else if env.rc.Err? {
        Answer(tag, Rerror(ErrnoEname(env.rc.e, StatFailed)));
      } else {
        Answer(tag, if 9 + env.rc.n <= cfg.maxMessage then Rstat(env.rc.n) else Rerror(RstatBuildFailed));
      }
    }

    method Twstat(msg: seq<byte>, env: Env)
      requires |reqs| > 0 && |msg| >= 7
      modifies this`sent
      ensures View() == Finish(cfg, old(View()), U16(msg, 5), HandleTwstat(old(Tables()), Padded(msg, 11, env)))
    {
      var i := Find(U32(Padded(msg, 11, env), 7));
      Answer(U16(msg, 5), Rerror(if i == |fids| || fids[i].node == 0 then UnknownFid else WstatNotSupported));
    }

    // -------------------------------------------------------------- Tauth and the auth fid

    /** The uname of a Tauth, or what stands in for it. */
    static method ClaimedName(msg: seq<byte>, env: Env) returns (uname: seq<byte>)
      ensures uname == AuthUname(msg, env)
    {
      uname := [];
      if |msg| > 13 {
        var n := U16(msg, 11);
        uname := if |msg| >= 13 + n then msg[13..13 + n] else Literal([], n, env);
      }
    }

    /** Everything handle_tauth does before it replies. */
    method StartAuth(msg: seq<byte>, env: Env) returns (body: Body)
      requires |msg| >= 11
      modifies this
      ensures View() == old(View()).(x := Tables())
      ensures Done(Tables(), body) == HandleTauth(cfg, old(Tables()), msg, env)
    {
      var afid := U32(msg, 7);
      var uname := ClaimedName(msg, env);
      if !cfg.auth {
        return Rerror(AuthNotRequired);
      }
      if |uname| == 0 || |uname| >= NAME_SIZE {
        return Rerror(InvalidIdentity);
      }
      var k := Alloc(afid);
      if k == |fids| {
        return Rerror(CannotAllocAfid);
      }
      var a := FindAuth();
      if a == |auths| {
        Free(afid);
        return Rerror(TooManyAuths);
      }
      fids := fids[k := fids[k].(isAuth := true, authIdx := a)];
      auths := auths[a := AuthSlot(true, CStr(uname), env.challenge, env.now, false, false)];
      body := Rauth(Qid(8, 0, afid));
    }

    method Tauth(msg: seq<byte>, env: Env)
      requires |reqs| > 0 && |msg| >= 7
      modifies this
      ensures View() == Finish(cfg, old(View()), U16(msg, 5),
                               HandleTauth(cfg, old(Tables()), Padded(msg, 11, env), env))
    {
      var body := StartAuth(Padded(msg, 11, env), env);
      Answer(U16(msg, 5), body);
    }

    /** Reading an auth fid: the challenge, while it lasts. */
    method ReadChallenge(e: FidEntry, offset: nat, count: nat, env: Env) returns (body: Body)
      modifies this`auths
      ensures Done(Tables(), body) == AuthRead(old(Tables()), e, offset, count, env)
    {
      if !(e.authIdx < |auths| && auths[e.authIdx].used) {
        return Rerror(InvalidAuthState);
      }
      var a := auths[e.authIdx];
      if (env.now - a.time) % MOD64 > CHALLENGE_LIFE {
        return Rerror(AuthTimeout);
      }
      var data: seq<byte> := [];
      if offset < |a.challenge| {
        var n := |a.challenge| - offset;
        if n > count {
          n := count;
        }
        data := a.challenge[offset..offset + n];
      }
      auths := auths[e.authIdx := a.(issued := true)];
      body := Rread(data);
    }

    /** The slot of entry i is authenticated, and the entry carries the name it was proven for. */
    method MarkProven(i: nat)
      requires i < |fids| && fids[i].authIdx < |auths|
      modifies this
      ensures View() == old(View()).(x := Tables())
      ensures var j := old(fids)[i].authIdx;
              Tables() == Rename(Accept(old(Tables()), j), i, old(auths)[j].identity)
    {
      var e := fids[i];
      var a := auths[e.authIdx];
      auths := auths[e.authIdx := a.(authenticated := true)];
      log := Then(log, Verified(a.identity));
      if e.unameIdx != POOL_NONE {
        ReleaseName(e.unameIdx);
      }
      var idx := InternName(a.identity);
      fids := fids[i := e.(unameIdx := idx)];
    }

    /** Writing an auth fid: the response, judged by the application. */
    method JudgeResponse(i: nat, data: seq<byte>, env: Env) returns (body: Body)
      requires i < |fids|
      modifies this
      ensures View() == old(View()).(x := Tables())
      ensures Done(Tables(), body) == AuthWrite(cfg, old(Tables()), i, data, env)
    {
      var e := fids[i];
      if !(e.authIdx < |auths| && auths[e.authIdx].used) {
        return Rerror(AuthStateLost);
      }
      var a := auths[e.authIdx];
      if !a.issued {
        return Rerror(ReadChallengeFirst);
      }
      if (env.now - a.time) % MOD64 > CHALLENGE_LIFE {
        return Rerror(AuthTimeout);
      }
      if |data| < 2 {
        return Rerror(InvalidAuthResponse);
      }
      if !cfg.auth || !cfg.canVerify {
        return Rerror(AuthNotConfigured);
      }
      if |data| != 129 && |data| != 96 {
        return Rerror(InvalidAuthSize);
      }
      if !env.verifies(a.identity, data[64..], data[..64], a.challenge) {
        return Rerror(AuthFailed);
      }
      MarkProven(i);
      body := Rwrite(|data|);
    }

    // -------------------------------------------------------------- Tread, Twrite

    /** With a read that may be deferred: older reads on the fid or tag are cancelled, then the read
        is parked, and released again unless the filesystem keeps its handle. */
    method ReadDeferred(e: FidEntry, tag: nat, count: nat, env: Env)
      requires |reqs| > 0 && cfg.canDefer
      modifies this
      ensures View() == ReadFile(cfg, old(View()), e, tag, count, env)
    {
      var id := Identity(e);
      CancelKeeps(cfg, View(), OfFidOrTag(e.fid, tag), 0);
      CancelReads(OfFidOrTag(e.fid, tag));
      log := Then(log, FsRead(e.fid, id));
      ghost var s1 := View();
      assert s1 == Cancel(cfg, old(View()), OfFidOrTag(e.fid, tag)).(x := s1.x);
      var slot := ParkRead(tag, e.fid, count);
      if env.rc == DEFER {
        if slot < |pend| {
          issued := issued + {Handle(slot, pend[slot].gen, |reqs| - 1)};
        } else {
          Answer(tag, Rread([]));
        }
        return;
      }
      if slot < |pend| {
        pend := pend[slot := pend[slot].(inUse := false)];
      }
      Answer(tag, ReadReply(env));
    }

    /** The read proper; no reply when the filesystem defers it. */
    method ReadNow(e: FidEntry, tag: nat, count: nat, env: Env)
      requires |reqs| > 0
      modifies this
      ensures View() == ReadFile(cfg, old(View()), e, tag, count, env)
    {
      if cfg.canDefer {
        ReadDeferred(e, tag, count, env);
        return;
      }
      var id := Identity(e);
      log := Then(log, FsRead(e.fid, id));
      Answer(tag, ReadReply(env));
    }

    method Tread(msg: seq<byte>, env: Env)
      requires |reqs| > 0 && |msg| >= 7
      modifies this
      ensures View() == HandleTread(cfg, old(View()), msg, env)
    {
      var tag := U16(msg, 5);
      if |msg| < 23 {
        Answer(tag, Rerror(MalformedTread));
        return;
      }
      var offset, count := U64(msg, 11), U32(msg, 19);
      var i := Find(U32(msg, 7));
      if i == |fids| {
        Answer(tag, Rerror(UnknownFid));
        return;
      }
      var e := fids[i];
      if e.isAuth {
        var body := ReadChallenge(e, offset, count, env);
        Answer(tag, body);
      } else if e.node == 0 {
        Answer(tag, Rerror(UnknownFid));
      } else if !e.isOpen {
        Answer(tag, Rerror(NotOpen));
      } else if e.openMode % 4 == OWRITE {
        Answer(tag, Rerror(NotOpenForReading));
      } else {
        var most := (cfg.maxMessage - 11) % MOD32;
        if msize > 11 && msize - 11 < most {
          most := msize - 11;
        }
        ReadNow(e, tag, if count > most then most else count, env);
      }
    }

    method Twrite(msg: seq<byte>, env: Env)
      requires |reqs| > 0 && |msg| >= 7
      modifies this
      ensures View() == Finish(cfg, old(View()), U16(msg, 5), HandleTwrite(cfg, old(Tables()), msg, env))
    {
      var tag := U16(msg, 5);
      if |msg| < 23 || |msg| - 23 < U32(msg, 19) {
        Answer(tag, Rerror(MalformedTwrite));
        return;
      }
      var fid, count := U32(msg, 7), U32(msg, 19);
      var i := Find(fid);
      if i == |fids| {
        Answer(tag, Rerror(UnknownFid));
        return;
      }
      var e := fids[i];
      if e.isAuth {
        var body := JudgeResponse(i, msg[23..23 + count], env);
        Answer(tag, body);
      } else if e.node == 0 {
        Answer(tag, Rerror(UnknownFid));
      } else if !e.isOpen {
        Answer(tag, Rerror(NotOpen));
      } else if e.openMode % 4 == OREAD || e.openMode % 4 == OEXEC {
        Answer(tag, Rerror(NotOpenForWriting));
      } else if !cfg.canWrite {
        Answer(tag, Rerror(WriteNotSupported));
      } else {
        var id := Identity(e);
        log := Then(log, FsWrite(fid, id));
        if env.rc.Err? {
          Answer(tag, Rerror(ErrnoEname(env.rc.e, WriteFailed)));
        } else {
          Answer(tag, if 11 <= cfg.maxMessage then Rwrite(env.rc.n) else Rerror(RwriteBuildFailed));
        }
      }
    }

    // -------------------------------------------------------------- Tflush, Tclunk, Tremove

    method Tflush(msg: seq<byte>, env: Env)
      requires |reqs| > 0 && |msg| >= 7
      modifies this
      ensures View() == HandleTflush(cfg, old(View()), Padded(msg, 9, env))
    {
      var oldTag := U16(Padded(msg, 9, env), 7);
      CancelKeeps(cfg, View(), OfTag(oldTag), 0);
      CancelReads(OfTag(oldTag));
      Answer(U16(msg, 5), Rflush);
    }

    /** Clunk the node of entry i, which serves fid, and free the fid. */
    method Clunk(i: nat, fid: nat)
      requires i == FindFid(fids, fid) < |fids|
      modifies this`fids, this`names, this`auths, this`log
      ensures Tables() == ClunkFid(cfg, old(Tables()), fid)
    {
      if cfg.canClunk && fids[i].node != 0 {
        log := Then(log, FsClunk(fids[i].node));
      }
      Free(fid);
    }

    method Tclunk(msg: seq<byte>, env: Env)
      requires |reqs| > 0 && |msg| >= 7
      modifies this
      ensures View() == HandleTclunk(cfg, old(View()), Padded(msg, 11, env))
    {
      var fid, tag := U32(Padded(msg, 11, env), 7), U16(msg, 5);
      var i := Find(fid);
      if i < |fids| {
        CancelKeeps(cfg, View(), OfFid(fid), 0);
        CancelReads(OfFid(fid));
        Clunk(i, fid);
      }
      Answer(tag, Rclunk);
    }

    method Tremove(msg: seq<byte>, env: Env)
      requires |reqs| > 0 && |msg| >= 7
      modifies this
      ensures View() == Finish(cfg, old(View()), U16(msg, 5),
                               HandleTremove(cfg, old(Tables()), Padded(msg, 11, env), env))
    {
      var fid, tag := U32(Padded(msg, 11, env), 7), U16(msg, 5);
      var i := Find(fid);
      if i == |fids| || fids[i].node == 0 {
        Answer(tag, Rerror(UnknownFid));
        return;
      }
      if !cfg.canRemove {
        Answer(tag, Rerror(RemoveNotSupported));
        return;
      }
      var ok := MayDo(fids[i], OWRITE, env);
      if !ok {
        Answer(tag, Rerror(PermissionDenied));
      } else if env.rc.Err? {
        Answer(tag, Rerror(ErrnoEname(env.rc.e, RemoveFailed)));
      } else {
        Free(fid);
        Answer(tag, Rremove);
      }
    }

    // -------------------------------------------------------------- dispatch, completion, cleanup

    /** ninep_server_process_message, under tx_buf_mutex. */
    method ProcessMessage(msg: seq<byte>, env: Env)
      modifies this
      ensures View() == Process(cfg, old(View()), msg, env)
      ensures old(Valid()) && FsHonest(cfg, old(View()), msg, env) && old(pendGen) + 1 < MOD32 ==> Valid()
    {
      ghost var s := View();
      if Valid() && FsHonest(cfg, s, msg, env) && pendGen + 1 < MOD32 {
        ProcessOk(cfg, s, msg, env);
      }
      if !HeaderOk(msg) {
        return;
      }
      reqs := reqs + [U16(msg, 5)];
      var t := msg[4];
      if t == TVERSION { Tversion(msg, env); }
      else if t == TAUTH { Tauth(msg, env); }
      else if t == TATTACH { Tattach(msg, env); }
      else if t == TFLUSH { Tflush(msg, env); }
      else if t == TWALK { Twalk(msg, env); }
      else if t == TOPEN { Topen(msg, env); }
      else if t == TCREATE { Tcreate(msg, env); }
      else if t == TREAD { Tread(msg, env); }
      else if t == TWRITE { Twrite(msg, env); }
      else if t == TCLUNK { Tclunk(msg, env); }
      else if t == TREMOVE { Tremove(msg, env); }
      else if t == TSTAT { Tstat(msg, env); }
      else if t == TWSTAT { Twstat(msg, env); }
      else { Answer(U16(msg, 5), Rerror(NotSupported)); }
    }

    /** What ninep_server_read_complete does under tx_buf_mutex. */
    method ReadComplete(slot: nat, gen: nat, data: seq<byte>) returns (rc: CompleteRc)
      modifies this`pend, this`sent
      ensures Completion(View(), rc) == Complete(cfg, old(View()), slot, gen, data)
      ensures old(Valid()) ==> Valid() && rc != BuildFailed
    {
      if Valid() {
        CompleteOk(cfg, View(), slot, gen, data);
      }
      if slot >= |pend| || !pend[slot].inUse || pend[slot].gen != gen {
        return Stale;
      }
      var p := pend[slot];
      var len := |data|;
      if len > p.count {
        len := p.count;
      }
      if len > (cfg.maxMessage - 11) % MOD64 {
        len := (cfg.maxMessage - 11) % MOD64;
      }
      var body := Rread(data[..len]);
      rc := if Size(body) <= cfg.maxMessage then Answered else BuildFailed;
      Send(p.tag, body, p.rid);
      pend := pend[slot := p.(inUse := false)];
    }

    /** What ninep_server_cleanup does behind its gate. */
    method CleanUp()
      modifies this
      ensures View() == Cleanup(cfg, old(View()))
      ensures old(Valid()) ==> Valid() && forall k :: 0 <= k < |fids| ==> !fids[k].inUse
    {
      if Valid() {
        CleanupOk(cfg, View());
      }
      DropAllParked();
      ghost var x := Tables();
      var i := 0;
      while i < |fids|
        invariant i <= |fids| == |x.fids|
        invariant View() == old(DropParked(View())).(x := CleanupFids(cfg, x, i))
      {
        if fids[i].inUse {
          if fids[i].node != 0 && cfg.canClunk {
            log := Then(log, FsClunk(fids[i].node));
          }
          Vacate(i);
        }
        i := i + 1;
      }
    }
  }
}
