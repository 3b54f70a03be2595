/**
 * What every handler keeps of a session: the reference counts of the username pool, the pairing of
 * auth slots with auth fids, distinct fid numbers, and two facts about the event log read as a
 * history: identities shown to the outside were verified in this session, and reads, writes and
 * walks respect the open state of their fid.
 */
module SessionInvariant {
  import opened Bytes
  import opened Traces
  import opened Session

  // ---------------------------------------------------------------- counting holders

  function One(b: bool): nat { if b then 1 else 0 }

  predicate HoldsName(e: FidEntry, i: nat) { e.inUse && e.unameIdx == i }

  predicate HoldsAuth(e: FidEntry, j: nat) { e.inUse && e.authIdx == j }

  function Holders(fids: seq<FidEntry>, i: nat): (n: nat)
    ensures n <= |fids|
  {
    if |fids| == 0 then 0 else One(HoldsName(fids[0], i)) + Holders(fids[1..], i)
  }

  function AuthHolders(fids: seq<FidEntry>, j: nat): (n: nat)
    ensures n <= |fids|
  {
    if |fids| == 0 then 0 else One(HoldsAuth(fids[0], j)) + AuthHolders(fids[1..], j)
  }

  lemma {:induction false} HoldersUpdate(fids: seq<FidEntry>, k: nat, e: FidEntry, i: nat)
    requires k < |fids|
    ensures Holders(fids[k := e], i) == Holders(fids, i) - One(HoldsName(fids[k], i)) + One(HoldsName(e, i))
    ensures Holders(fids, i) >= One(HoldsName(fids[k], i))
  {
    if k == 0 {
      assert fids[k := e][1..] == fids[1..];
    } else {
      assert fids[k := e][1..] == fids[1..][k - 1 := e];
      HoldersUpdate(fids[1..], k - 1, e, i);
    }
  }

  lemma {:induction false} AuthHoldersUpdate(fids: seq<FidEntry>, k: nat, e: FidEntry, j: nat)
    requires k < |fids|
    ensures AuthHolders(fids[k := e], j) == AuthHolders(fids, j) - One(HoldsAuth(fids[k], j)) + One(HoldsAuth(e, j))
    ensures AuthHolders(fids, j) >= One(HoldsAuth(fids[k], j))
  {
    if k == 0 {
      assert fids[k := e][1..] == fids[1..];
    } else {
      assert fids[k := e][1..] == fids[1..][k - 1 := e];
      AuthHoldersUpdate(fids[1..], k - 1, e, j);
    }
  }

  /** An entry that does not hold name i leaves room for one more holder in the eight-bit count. */
  lemma HoldersSlack(fids: seq<FidEntry>, k: nat, i: nat)
    requires k < |fids| && !HoldsName(fids[k], i)
    ensures Holders(fids, i) < |fids|
  {
    var e := fids[k].(inUse := true, unameIdx := i);
    HoldersUpdate(fids, k, e, i);
  }

  lemma {:induction false} NoHolders(fids: seq<FidEntry>, i: nat)
    requires forall k :: 0 <= k < |fids| ==> !fids[k].inUse
    ensures Holders(fids, i) == 0 && AuthHolders(fids, i) == 0
  {
    if |fids| > 0 {
      assert !fids[0].inUse;
      NoHolders(fids[1..], i);
    }
  }

  // ---------------------------------------------------------------- the log as a history

  /** Identities verified since the last session reset, and the mode of each fid opened since it was bound. */
  datatype History = History(verified: set<seq<byte>>, modes: map<nat, nat>)

  function Advance(h: History, e: Event): History {
    match e
    case Reset => History({}, map[])
    case Verified(id) => h.(verified := h.verified + {id})
    case Bound(f) => h.(modes := h.modes - {f})
    case Opened(f, m) => h.(modes := h.modes[f := m])
    case _ => h
  }

  function Replay(log: Log): History {
    match log
    case Start => History({}, map[])
    case Then(before, e) => Advance(Replay(before), e)
  }

  predicate IdOk(h: History, id: seq<byte>) { id == [] || id in h.verified }

  /** An event that is in order after the history h. */
  predicate EventOk(h: History, e: Event) {
    match e
    case FsRead(f, id) => IdOk(h, id) && f in h.modes && h.modes[f] % 4 != OWRITE
    case FsWrite(f, id) => IdOk(h, id) && f in h.modes && h.modes[f] % 4 != OREAD && h.modes[f] % 4 != OEXEC
    case FsCreate(_, id) => IdOk(h, id)
    case CheckPerm(_, id) => IdOk(h, id)
    case Walks(f) => f !in h.modes
    case FsWalk(f, _, _) => f !in h.modes
    case _ => true
  }

  predicate LogOk(log: Log) {
    log.Then? ==> LogOk(log.before) && EventOk(Replay(log.before), log.last)
  }

  /** In an orderly log every event fits the history before it. */
  lemma {:induction false} LogOkAt(log: Log, at: Log)
    requires LogOk(log) && Reaches(at, log) && at.Then?
    ensures EventOk(Replay(at.before), at.last)
  {
    if at != log {
      LogOkAt(log.before, at);
    }
  }

  // ---------------------------------------------------------------- the invariant

  predicate UnamesOk(fids: seq<FidEntry>, names: seq<Uname>) {
    && |fids| <= 255 && |names| <= 255
    && (forall i :: 0 <= i < |names| ==> names[i].refs == Holders(fids, i))
    && (forall k :: 0 <= k < |fids| && fids[k].inUse ==> fids[k].unameIdx == POOL_NONE || fids[k].unameIdx < |names|)
  }

  predicate AuthsOk(fids: seq<FidEntry>, auths: seq<AuthSlot>) {
    && |auths| <= 255
    && (forall j :: 0 <= j < |auths| ==> AuthHolders(fids, j) == One(auths[j].used))
    && (forall k :: 0 <= k < |fids| && fids[k].inUse ==>
          if fids[k].isAuth then fids[k].authIdx < |auths| else fids[k].authIdx == POOL_NONE)
  }

  predicate Distinct(fids: seq<FidEntry>) {
    forall a, b :: 0 <= a < b < |fids| && fids[a].inUse && fids[b].inUse ==> fids[a].fid != fids[b].fid
  }

  /** The name an entry carries is verified if anything would ever take it for an identity. */
  predicate EntryIdOk(names: seq<Uname>, h: History, e: FidEntry) {
    e.inUse && (e.authenticated || e.isAuth) && e.unameIdx < |names| ==> IdOk(h, CStr(names[e.unameIdx].text))
  }

  predicate IdentitiesOk(fids: seq<FidEntry>, names: seq<Uname>, auths: seq<AuthSlot>, h: History) {
    && (forall k :: 0 <= k < |fids| ==> EntryIdOk(names, h, fids[k]))
    && (forall j :: 0 <= j < |auths| ==>
          |auths[j].identity| < NAME_SIZE && 0 !in auths[j].identity
          && (auths[j].used && auths[j].authenticated ==> auths[j].identity in h.verified))
  }

  predicate EntryOpenOk(h: History, e: FidEntry) {
    e.inUse ==> if e.isOpen then e.fid in h.modes && h.modes[e.fid] == e.openMode else e.fid !in h.modes
  }

  predicate OpensOk(fids: seq<FidEntry>, h: History) {
    forall k :: 0 <= k < |fids| ==> EntryOpenOk(h, fids[k])
  }

  predicate SessionOk(x: Session) {
    && UnamesOk(x.fids, x.names)
    && AuthsOk(x.fids, x.auths)
    && Distinct(x.fids)
    && IdentitiesOk(x.fids, x.names, x.auths, Replay(x.log))
    && OpensOk(x.fids, Replay(x.log))
    && LogOk(x.log)
  }

  // ---------------------------------------------------------------- steps on the tables

  /** Replacing one entry keeps the counts right when the pool's counts move with it. */
  lemma UnamesStep(fids: seq<FidEntry>, names: seq<Uname>, k: nat, e: FidEntry, names': seq<Uname>)
    requires UnamesOk(fids, names) && k < |fids| && |names'| == |names|
    requires e.inUse ==> e.unameIdx == POOL_NONE || e.unameIdx < |names|
    requires forall i :: 0 <= i < |names| ==>
               names'[i].refs == names[i].refs - One(HoldsName(fids[k], i)) + One(HoldsName(e, i))
    ensures UnamesOk(fids[k := e], names')
  {
    forall i | 0 <= i < |names| ensures names'[i].refs == Holders(fids[k := e], i) {
      HoldersUpdate(fids, k, e, i);
    }
  }

  lemma AuthsStep(fids: seq<FidEntry>, auths: seq<AuthSlot>, k: nat, e: FidEntry, auths': seq<AuthSlot>)
    requires AuthsOk(fids, auths) && k < |fids| && |auths'| == |auths|
    requires e.inUse ==> if e.isAuth then e.authIdx < |auths| else e.authIdx == POOL_NONE
    requires forall j :: 0 <= j < |auths| ==>
               One(auths'[j].used) == One(auths[j].used) - One(HoldsAuth(fids[k], j)) + One(HoldsAuth(e, j))
    ensures AuthsOk(fids[k := e], auths')
  {
    forall j | 0 <= j < |auths| ensures AuthHolders(fids[k := e], j) == One(auths'[j].used) {
      AuthHoldersUpdate(fids, k, e, j);
    }
  }

  /** The slot of an in-use auth fid is used. */
  lemma AuthFidHasSlot(fids: seq<FidEntry>, auths: seq<AuthSlot>, k: nat)
    requires AuthsOk(fids, auths) && k < |fids| && fids[k].inUse && fids[k].isAuth
    ensures auths[fids[k].authIdx].used
  {
    AuthHoldersUpdate(fids, k, fids[k], fids[k].authIdx);
  }

  /** The name an in-use fid holds has a reference, so its slot cannot be handed out again. */
  lemma HeldNameIsLive(fids: seq<FidEntry>, names: seq<Uname>, k: nat)
    requires UnamesOk(fids, names) && k < |fids| && fids[k].inUse && fids[k].unameIdx < |names|
    ensures names[fids[k].unameIdx].refs > 0
  {
    HoldersUpdate(fids, k, fids[k], fids[k].unameIdx);
  }

  /** What interning does: at most one slot changes, it then spells the (clipped) name, and a slot
      that was in use keeps its text. */
  lemma InternMeans(names: seq<Uname>, name: seq<byte>)
    requires |names| <= 255 && forall i :: 0 <= i < |names| ==> names[i].refs < 255
    ensures var r := Intern(names, name);
            && |r.names| == |names|
            && (r.idx == POOL_NONE || r.idx < |names|)
            && (r.idx < |names| ==> CStr(r.names[r.idx].text) == CStr(Clip(name)))
            && (forall i :: 0 <= i < |names| ==>
                  && r.names[i].refs == names[i].refs + One(r.idx == i)
                  && (names[i].refs > 0 ==> CStr(r.names[i].text) == CStr(names[i].text)))
    ensures Intern(names, name).idx == POOL_NONE ==> Intern(names, name).names == names
  {
    var n := Clip(name);
    var i := FindName(names, n);
    if i < |names| {
      SameUpToMeansSameCStr(names[i].text, n);
    } else {
      var j := FreeName(names);
      if j < |names| {
        var text := Overlay(names[j].text, n);
        var m := |CStr(n)|;
        assert text[..m] == CStr(n) && text[m] == 0;
        CStrAt(text, m);
      }
    }
  }

  lemma {:induction false} CStrOfClean(b: seq<byte>)
    requires 0 !in b
    ensures CStr(b) == b
  {
    if |b| > 0 {
      CStrOfClean(b[1..]);
    }
  }

  // ---------------------------------------------------------------- steps on the session

  lemma IdentityShown(x: Session, k: nat)
    requires SessionOk(x) && k < |x.fids| && x.fids[k].inUse
    ensures IdOk(Replay(x.log), FidIdentity(x, x.fids[k]))
  {
    assert EntryIdOk(x.names, Replay(x.log), x.fids[k]);
  }

  /** Changing the node, iounit, open state or auth progress of an entry leaves the tables alone. */
  lemma EntryTouched(x: Session, k: nat, e: FidEntry)
    requires SessionOk(x) && k < |x.fids|
    requires var o := x.fids[k];
             e.inUse == o.inUse && e.fid == o.fid && e.unameIdx == o.unameIdx && e.authIdx == o.authIdx
             && e.isAuth == o.isAuth && e.authenticated == o.authenticated
             && e.isOpen == o.isOpen && e.openMode == o.openMode
    ensures SessionOk(SetFid(x, k, e))
  {
    UnamesStep(x.fids, x.names, k, e, x.names);
    AuthsStep(x.fids, x.auths, k, e, x.auths);
  }

  /** A successful Topen or Tcreate: the entry and the log change together. */
  lemma EntryOpened(x: Session, k: nat, e: FidEntry, mode: nat)
    requires SessionOk(x) && k < |x.fids| && x.fids[k].inUse
    requires e == x.fids[k].(isOpen := true, openMode := mode, node := e.node, iounit := e.iounit)
    ensures SessionOk(SetFid(x, k, e).(log := Then(x.log, Opened(e.fid, mode))))
  {
    UnamesStep(x.fids, x.names, k, e, x.names);
    AuthsStep(x.fids, x.auths, k, e, x.auths);
    var h, h', fids' := Replay(x.log), Replay(Then(x.log, Opened(e.fid, mode))), x.fids[k := e];
    forall i | 0 <= i < |x.fids| ensures EntryOpenOk(h', fids'[i]) {
      assert EntryOpenOk(h, x.fids[i]);
    }
  }

  lemma FidAllocated(x: Session, fid: nat, k: nat)
    requires SessionOk(x) && k < |x.fids| && k == AllocAt(x.fids, fid)
    ensures SessionOk(AllocFid(x, fid, k))
    ensures Replay(AllocFid(x, fid, k).log) == Replay(x.log).(modes := Replay(x.log).modes - {fid})
  {
    var e := FreshEntry(x.fids[k], fid);
    UnamesStep(x.fids, x.names, k, e, x.names);
    AuthsStep(x.fids, x.auths, k, e, x.auths);
    var h, h', fids' := Replay(x.log), Replay(Then(x.log, Bound(fid))), x.fids[k := e];
    forall i | 0 <= i < |x.fids| ensures EntryOpenOk(h', fids'[i]) {
      assert EntryOpenOk(h, x.fids[i]);
    }
  }

  lemma EntryReleased(x: Session, i: nat)
    requires SessionOk(x) && i < |x.fids| && x.fids[i].inUse
    ensures SessionOk(ReleaseEntry(x, i))
  {
    var e, y := x.fids[i], ReleaseEntry(x, i);
    if e.unameIdx != POOL_NONE {
      HeldNameIsLive(x.fids, x.names, i);
    }
    UnamesStep(x.fids, x.names, i, Cleared(e), y.names);
    if e.isAuth {
      AuthFidHasSlot(x.fids, x.auths, i);
    }
    AuthsStep(x.fids, x.auths, i, Cleared(e), y.auths);
    var h := Replay(x.log);
    forall k | 0 <= k < |y.fids| ensures EntryIdOk(y.names, h, y.fids[k]) {
      assert EntryIdOk(x.names, h, x.fids[k]);
    }
  }

  lemma FidFreed(x: Session, fid: nat)
    requires SessionOk(x)
    ensures SessionOk(FreeFid(x, fid))
  {
    var i := FindFid(x.fids, fid);
    if i < |x.fids| {
      EntryReleased(x, i);
    }
  }

  /** An entry without a name takes the one just interned; who may call it an identity decides
      whether it has to be a verified one. */
  lemma NameTaken(x: Session, k: nat, name: seq<byte>, authentic: bool)
    requires SessionOk(x) && k < |x.fids| && x.fids[k].inUse && x.fids[k].unameIdx == POOL_NONE
    requires authentic || x.fids[k].isAuth ==> IdOk(Replay(x.log), CStr(Clip(name)))
    ensures var n := Intern(x.names, name);
            SessionOk(SetFid(x, k, x.fids[k].(unameIdx := n.idx, authenticated := authentic)).(names := n.names))
  {
    forall i | 0 <= i < |x.names| ensures x.names[i].refs < 255 {
      HoldersSlack(x.fids, k, i);
    }
    InternMeans(x.names, name);
    var n := Intern(x.names, name);
    var e := x.fids[k].(unameIdx := n.idx, authenticated := authentic);
    UnamesStep(x.fids, x.names, k, e, n.names);
    AuthsStep(x.fids, x.auths, k, e, x.auths);
    var h, fids' := Replay(x.log), x.fids[k := e];
    forall i | 0 <= i < |x.fids| ensures EntryIdOk(n.names, h, fids'[i]) {
      assert EntryIdOk(x.names, h, x.fids[i]);
      if i != k && x.fids[i].inUse && x.fids[i].unameIdx < |x.names| {
        HeldNameIsLive(x.fids, x.names, i);
      }
    }
  }
}
