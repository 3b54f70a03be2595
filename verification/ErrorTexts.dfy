/** An error on its way from the filesystem to the caller: an errno, a text in an Rerror, an errno again. */
module ErrorTexts {
  import opened Bytes
  import opened Session
  import opened Wire
  import C = Client
  import opened ClientReplies
  import opened Dispatch
  import opened ServerInvariant
  import opened FileAccess

  function AsBytes(t: string): (b: seq<byte>)
    ensures |b| == |t| && forall i :: 0 <= i < |t| ==> b[i] == t[i] as int % 256
  {
    seq(|t|, i requires 0 <= i < |t| => t[i] as int % 256)
  }

  function RerrorFrame(tag: nat, t: seq<byte>): seq<byte> { Message(C.RERROR, tag, Str(t)) }

  /** The first letter tells a text from those a caller can tell apart. */
  predicate FarOff(t: string) { |t| > 0 && t[0] != 'p' && t[0] != 'n' && t[0] != 'f' && t[0] as int < 256 }

  lemma FirstLetter1(e: Ename)
    requires e in {IsADirectory, OutOfMemory, InvalidArgument, NotSupported, TryAgain, TimedOut}
    ensures FarOff(Text(e))
  {
  }

  lemma FirstLetter2(e: Ename)
    requires e in {OpenFailed, ReadFailed, StatFailed}
    ensures FarOff(Text(e))
  {
  }

  lemma FirstLetter3(e: Ename)
    requires e in {CreateFailed, WriteFailed, RemoveFailed}
    ensures FarOff(Text(e))
  {
  }

  /** A text that begins with such a letter and parts from them further on. */
  predicate Nearby(t: string) {
    && |t| > 5 && t[0] in {'n', 'f'} && t[2] in {'d', 'l', 't', ' '} && t[4] as int < 256 && t[5] as int < 256
    && (t[0] == 'n' ==> t[2] == ' ' || (t[4] == 'a' && t[5] != 'u'))
    && (t[0] == 'f' ==> t[2] == 'd' || t[5] != 'n')
  }

  lemma LaterLetter(e: Ename)
    requires e in {NotADirectory, AlreadyExists, NoSpace}
    ensures Nearby(Text(e))
  {
  }

  lemma PlainText(e: Ename)
    requires e in {FileNotFound, PermissionDenied, NotAuthorized}
    ensures forall i :: 0 <= i < |Text(e)| ==> Text(e)[i] as int < 256
  {
  }

  /** Bytes that part from all four texts within six letters. */
  predicate Apart(t: seq<byte>) {
    && |t| > 0 && t[0] != 'p' as int
    && (t[0] == 'n' as int && |t| > 5 ==> t[2] != 't' as int || (t[4] == 'a' as int && t[5] != 'u' as int))
    && (t[0] == 'f' as int && |t| > 5 ==> t[2] != 'l' as int || t[5] != 'n' as int)
  }

  lemma ApartSpellsNone(t: seq<byte>)
    requires Apart(t)
    ensures !Spells(t, "permission denied") && !Spells(t, "not authorized")
    ensures !Spells(t, "file not found") && !Spells(t, "not found")
  {
    assert "permission denied"[0] == 'p' && "not authorized"[0] == 'n' && "not authorized"[2] == 't';
    assert "not authorized"[5] == 'u' && "not found"[0] == 'n' && "not found"[2] == 't' && "not found"[4] == 'f';
    assert "file not found"[0] == 'f' && "file not found"[2] == 'l' && "file not found"[5] == 'n';
  }

  lemma LettersTell(t: string)
    requires FarOff(t) || Nearby(t)
    ensures Apart(AsBytes(t))
  {
  }

  /** What an operation says of an error that has no text of its own. */
  predicate Generic(e: Ename) { e in {OpenFailed, ReadFailed, StatFailed, CreateFailed, WriteFailed, RemoveFailed} }

  lemma OtherTexts(errno: Errno, fallback: Ename)
    requires Generic(fallback) && errno !in {EACCES, EPERM, ENOENT}
    ensures var t := Text(ErrnoEname(errno, fallback)); FarOff(t) || Nearby(t)
  {
    var e := ErrnoEname(errno, fallback);
    if errno in {ENOTDIR, EEXIST, ENOSPC} {
      LaterLetter(e);
    } else if errno in {EISDIR, ENOMEM, EINVAL, ENOTSUP, EAGAIN, ETIMEDOUT} {
      FirstLetter1(e);
    } else if e in {OpenFailed, ReadFailed, StatFailed} {
      FirstLetter2(e);
    } else {
      FirstLetter3(e);
    }
  }

  lemma ItsOwnText(e: Ename, text: string)
    requires e in {FileNotFound, PermissionDenied, NotAuthorized} && text == Text(e)
    ensures Spells(AsBytes(text), text)
  {
    PlainText(e);
  }

  /** Of the texts for the filesystem's errors only three begin like one of the four a caller can tell apart. */
  lemma WhichTextsLead(errno: Errno, fallback: Ename)
    requires Generic(fallback)
    ensures var t := AsBytes(Text(ErrnoEname(errno, fallback)));
            && (Spells(t, "permission denied") <==> errno == EACCES)
            && (Spells(t, "not authorized") <==> errno == EPERM)
            && (Spells(t, "file not found") || Spells(t, "not found") <==> errno == ENOENT)
  {
    var e := ErrnoEname(errno, fallback);
    if errno in {EACCES, EPERM, ENOENT} {
      ItsOwnText(e, Text(e));
      TextsApart(AsBytes(Text(e)));
    } else {
      OtherTexts(errno, fallback);
      LettersTell(Text(e));
      ApartSpellsNone(AsBytes(Text(e)));
    }
  }

  /** Size, type, tag and text of an Rerror read back. */
  lemma RerrorReadBack(tag: nat, t: seq<byte>)
    requires tag < MOD16 && |t| <= 60000
    ensures var m := RerrorFrame(tag, t);
            && |m| == 9 + |t| && U32(m, 0) == |m| && m[4] == C.RERROR && U16(m, 5) == tag
            && U16(m, 7) == |t| && m[9..9 + |t|] == t
  {
    var none := t[|t|..];
    HeaderReadBack(C.RERROR, tag, Str(t));
    assert Str(t) == Str(t) + none;
    NameReadBack(RerrorFrame(tag, t), 7, t, none);
  }

  lemma SaysIt(m: seq<byte>, t: seq<byte>, text: string)
    requires |m| == 9 + |t| && m[4] == C.RERROR && U16(m, 7) == |t| && m[9..9 + |t|] == t
    ensures Says(m, text) <==> Spells(t, text)
  {
  }

  lemma TextDecides(m: seq<byte>, t: seq<byte>)
    requires |m| == 9 + |t| && m[4] == C.RERROR && U16(m, 7) == |t| && m[9..9 + |t|] == t
    ensures C.FaultOf(m) == C.AccessDenied <==> Spells(t, "permission denied")
    ensures C.FaultOf(m) == C.NotPermitted <==> Spells(t, "not authorized")
    ensures C.FaultOf(m) == C.NoEntry <==> Spells(t, "not found") || Spells(t, "file not found")
    ensures C.FaultOf(m) !in {C.NoFault, C.TooLarge}
  {
    FaultMeans(m);
    SaysIt(m, t, "permission denied");
    SaysIt(m, t, "not authorized");
    SaysIt(m, t, "not found");
    SaysIt(m, t, "file not found");
  }

  /** An access, permission or missing-entry error of the filesystem reaches the caller as the same error,
      whatever the operation; every other errno reaches it as an I/O error. */
  lemma ErrnoCrosses(tag: nat, errno: Errno, fallback: Ename, t: seq<byte>)
    requires tag < MOD16 && Generic(fallback) && t == AsBytes(Text(ErrnoEname(errno, fallback)))
    ensures C.FaultOf(RerrorFrame(tag, t))
            == if errno == EACCES then C.AccessDenied else if errno == EPERM then C.NotPermitted
               else if errno == ENOENT then C.NoEntry else C.IoError
  {
    WhichTextsLead(errno, fallback);
    RerrorReadBack(tag, t);
    TextDecides(RerrorFrame(tag, t), t);
  }

  /** From the server's filesystem to the client's caller: the reply to a request the filesystem fails is an
      Rerror that a client takes for the same errno, or for an I/O error if it is not one of those three. */
  lemma FsErrorArrives(cfg: Config, s: State, msg: seq<byte>, env: Env, m: seq<byte>)
    requires ConfigOk(cfg) && HeaderOk(msg) && msg[4] in {TOPEN, TCREATE, TWRITE, TREMOVE, TSTAT}
    requires m == Seen(msg, env) && ReachesFs(cfg, s.x, m, env) && env.rc.Err?
    ensures var s' := Process(cfg, s, msg, env);
            && s'.sent.Then? && s'.sent.last.body.Rerror?
            && C.FaultOf(RerrorFrame(s'.sent.last.tag, AsBytes(Text(s'.sent.last.body.ename))))
               == if env.rc.e == EACCES then C.AccessDenied else if env.rc.e == EPERM then C.NotPermitted
                  else if env.rc.e == ENOENT then C.NoEntry else C.IoError
  {
    var e := ErrnoEname(env.rc.e, Fallback(msg[4]));
    FsErrorIsReported(cfg, s, msg, env, m);
    ErrnoCrosses(U16(msg, 5), env.rc.e, Fallback(msg[4]), AsBytes(Text(e)));
  }
}
