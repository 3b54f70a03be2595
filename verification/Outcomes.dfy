/** How a dispatch is answered, and which handler answers it. */
module Outcomes {
  import opened Bytes
  import opened Traces
  import opened Session
  import opened Dispatch

  /** The dispatch of msg is answered once, with b, and nothing else is sent. */
  predicate AnsweredBy(s: State, s': State, msg: seq<byte>, b: Body)
    requires |msg| >= 7
  {
    s'.sent == Then(s.sent, Reply(|s.reqs|, U16(msg, 5), b))
  }

  predicate Rejected(s: State, s': State, msg: seq<byte>)
    requires |msg| >= 7
  {
    s'.sent.Then? && s'.sent.last.body.Rerror? && AnsweredBy(s, s', msg, s'.sent.last.body)
  }

  lemma Sent(cfg: Config, s: State, msg: seq<byte>, d: Done)
    requires |msg| >= 7 && Size(d.body) <= cfg.maxMessage
    ensures var s' := Finish(cfg, Receive(s, msg), U16(msg, 5), d);
            s'.x == d.x && s'.pend == s.pend && AnsweredBy(s, s', msg, d.body)
  {
  }

  lemma Dispatched(cfg: Config, s: State, msg: seq<byte>, env: Env, m: seq<byte>)
    requires HeaderOk(msg) && m == Seen(msg, env) && |m| >= 7
    ensures Process(cfg, s, msg, env) == Handle1(cfg, Receive(s, msg), m, env) && U16(m, 5) == U16(msg, 5)
  {
  }

  /** The requests answered by a handler that knows the session alone. */
  function Plain(cfg: Config, x: Session, m: seq<byte>, env: Env): Done
    requires WellFormed(m) && m[4] in {TOPEN, TCREATE, TWRITE, TREMOVE, TSTAT}
  {
    if m[4] == TOPEN then HandleTopen(cfg, x, m, env)
    else if m[4] == TCREATE then HandleTcreate(cfg, x, m, env)
    else if m[4] == TWRITE then HandleTwrite(cfg, x, m, env)
    else if m[4] == TREMOVE then HandleTremove(cfg, x, m, env)
    else HandleTstat(cfg, x, m, env)
  }

  lemma PlainDispatched(cfg: Config, s: State, msg: seq<byte>, env: Env, m: seq<byte>)
    requires HeaderOk(msg) && m == Seen(msg, env) && m[4] in {TOPEN, TCREATE, TWRITE, TREMOVE, TSTAT}
    ensures Process(cfg, s, msg, env) == Finish(cfg, Receive(s, msg), U16(msg, 5), Plain(cfg, s.x, m, env))
  {
    Dispatched(cfg, s, msg, env, m);
  }
}
