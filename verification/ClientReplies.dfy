/** What a call returns for the reply it gets: the bytes, or the error the reply spells. */
module ClientReplies {
  import opened Bytes
  import opened Client
  import opened ClientRuns

  // ---------------------------------------------------------------- error texts

  /** b starts with the characters of text. */
  predicate Spells(b: seq<byte>, text: string) {
    |text| <= |b| && forall i :: 0 <= i < |text| ==> b[i] as int == text[i] as int
  }

  lemma {:induction false} BeginsSpells(b: seq<byte>, text: string)
    ensures Begins(b, text) <==> Spells(b, text)
    decreases |text|
  {
    if |text| > 0 && |b| > 0 {
      BeginsSpells(b[1..], text[1..]);
      assert forall i :: 1 <= i < |text| ==> text[i] == text[1..][i - 1];
      assert forall i :: 1 <= i < |b| ==> b[i] == b[1..][i - 1];
      if Spells(b[1..], text[1..]) && b[0] as int == text[0] as int {
        forall i | 0 <= i < |text| ensures b[i] as int == text[i] as int {
          assert i > 0 ==> b[1..][i - 1] as int == text[1..][i - 1] as int;
        }
      }
      if Spells(b, text) {
        forall i | 0 <= i < |text[1..]| ensures b[1..][i] as int == text[1..][i] as int {
          assert b[i + 1] as int == text[i + 1] as int;
        }
      }
    }
  }

  /** An Rerror that is all there, and says text. */
  predicate Says(frame: seq<byte>, text: string) {
    && |frame| >= 9 && frame[4] == RERROR && |frame| >= 9 + U16(frame, 7)
    && Spells(frame[9..9 + U16(frame, 7)], text)
  }

  lemma TextsApart(b: seq<byte>)
    ensures !(Spells(b, "permission denied") && Spells(b, "not authorized"))
    ensures !(Spells(b, "permission denied") && (Spells(b, "not found") || Spells(b, "file not found")))
    ensures !(Spells(b, "not authorized") && (Spells(b, "not found") || Spells(b, "file not found")))
  {
    assert "permission denied"[0] == 'p' && "not authorized"[0] == 'n' && "not found"[0] == 'n';
    assert "file not found"[0] == 'f' && "not authorized"[4] == 'a' && "not found"[4] == 'f';
  }

  /** The four errors a caller can tell apart, by the text of the Rerror; any other is an I/O error. */
  lemma FaultMeans(frame: seq<byte>)
    requires |frame| >= 7
    ensures FaultOf(frame) == NoFault <==> frame[4] != RERROR
    ensures FaultOf(frame) != TooLarge
    ensures FaultOf(frame) == AccessDenied <==> Says(frame, "permission denied")
    ensures FaultOf(frame) == NotPermitted <==> Says(frame, "not authorized")
    ensures FaultOf(frame) == NoEntry <==> Says(frame, "not found") || Says(frame, "file not found")
  {
    if |frame| >= 9 && |frame| >= 9 + U16(frame, 7) {
      var ename := frame[9..9 + U16(frame, 7)];
      BeginsSpells(ename, "permission denied");
      BeginsSpells(ename, "not authorized");
      BeginsSpells(ename, "not found");
      BeginsSpells(ename, "file not found");
      TextsApart(ename);
    }
  }

  // ---------------------------------------------------------------- a reply that arrives

  /** The result a call has earned with frame. */
  predicate Earned(c: Client, job: Job, frame: seq<byte>, r: Result) {
    if |frame| > c.bufSize then r == Refused(job, TooLarge)
    else if |frame| >= 7 && frame[4] != RERROR then r == Answered(job, frame)
    else
      && r.Refused? && r.job == job && r.fault !in {NoFault, TooLarge}
      && (r.fault == AccessDenied <==> Says(frame, "permission denied"))
      && (r.fault == NotPermitted <==> Says(frame, "not authorized"))
      && (r.fault == NoEntry <==> Says(frame, "not found") || Says(frame, "file not found"))
  }

  lemma OwnSlotFound(w: World, t: nat)
    requires WorldOk(w) && t < |w.threads| && InFlight(w.threads[t])
    requires !w.threads[t].job.kind.Version? && w.threads[t].job.tag != NOTAG
    ensures var job := w.threads[t].job;
            job.slot < |w.c.slots| && FindTag(w.c.slots, job.wire) == job.slot
  {
    assert ThreadOk(w, t);
    FreeExact(w, t);
  }

  lemma WokenReturns(c: Client, job: Job, s: Slot, frame: seq<byte>)
    requires |frame| >= 7
    requires if |frame| <= c.bufSize then s.rx == frame && s.fault == FaultOf(frame) else s.fault == TooLarge
    ensures Earned(c, job, frame, Outcome(job, s))
  {
    FaultMeans(frame);
  }

  /** A frame that carries the tag of a waiting call completes that call alone, and what the call then
      returns is the frame, or the error it spells, or that it was too large. */
  lemma ReplyIsReturned(w: World, t: nat, frame: seq<byte>)
    requires WorldOk(w) && t < |w.threads| && w.threads[t].Waiting? && HeaderOk(frame)
    requires !w.threads[t].job.kind.Version? && w.threads[t].job.tag != NOTAG
    requires U16(frame, 5) == w.threads[t].job.wire
    ensures var w1, i := Apply(w, Receive(frame)), w.threads[t].job.slot;
            && Enabled(w1, Wake(t)) && w1.threads == w.threads
            && (forall k :: 0 <= k < |w.c.slots| && k != i ==> w1.c.slots[k] == w.c.slots[k])
            && Apply(w1, Wake(t)).threads[t].Idle?
            && Earned(w.c, w.threads[t].job, frame, Apply(w1, Wake(t)).threads[t].result)
  {
    OwnSlotFound(w, t);
    var w1, i := Apply(w, Receive(frame)), w.threads[t].job.slot;
    var s := w1.c.slots[i];
    assert s.complete;
    assert if |frame| <= w.c.bufSize then s.rx == frame && s.fault == FaultOf(frame) else s.fault == TooLarge;
    WokenReturns(w.c, w.threads[t].job, s, frame);
  }

  // ---------------------------------------------------------------- the agreed size

  /** The answer to a Tversion is accepted if it is all there and names this protocol, with or without more. */
  predicate Accepted(rx: seq<byte>) {
    |rx| >= 13 && |rx| >= 13 + U16(rx, 11) && U16(rx, 11) >= 6 && Spells(rx[13..], "9P2000")
  }

  predicate IsLeastOf(m: nat, a: nat, b: nat, c: nat) {
    m <= a && m <= b && m <= c && (m == a || m == b || m == c)
  }

  /** A version call that returns an accepted answer leaves the least of the server's size, the client's own
      and its buffer's; no other call that returns touches the size. */
  lemma VersionSettlesSize(w: World, t: nat, job: Job, r: Result)
    requires t < |w.threads| && job.slot < |w.owner| == |w.c.slots|
    ensures var c' := End(w, t, job, r).c;
            if job.kind.Version? && r.Answered? && Accepted(r.rx) then
              IsLeastOf(c'.msize, U32(r.rx, 7), w.c.maxMessage, w.c.bufSize)
            else c'.msize == w.c.msize
  {
    if r.Answered? && |r.rx| >= 13 {
      BeginsSpells(r.rx[13..], "9P2000");
    }
  }

  /** How much one Tread may ask for or one Twrite may carry behind a head: what fits the client's buffer and
      an agreed size that holds more than the head, and no less. */
  lemma CapIsGreatest(c: Client, head: nat)
    ensures var n := PayloadCap(c, head);
            && (n > 0 ==> n + head <= c.bufSize && (c.msize > head ==> n + head <= c.msize))
            && (n + head >= c.bufSize || (c.msize > head && n + head == c.msize))
  {
  }
}
