/** path_normalize of the namespace: a character machine, and the stack of components it computes. */
module Normalize {
  import opened Bytes
  import opened PathNames

  const DOT: byte := 46
  const HERE: seq<byte> := [DOT]
  const UP: seq<byte> := [DOT, DOT]

  // ---------------------------------------------------------------- the machine

  predicate AtUp(s: seq<byte>) { |s| >= 2 && s[..2] == UP && (|s| == 2 || s[2] == SLASH) }

  predicate AtHere(s: seq<byte>) { |s| >= 1 && s[0] == DOT && (|s| == 1 || s[1] == SLASH) }

  /** Behind n characters and, if one follows, a slash. */
  function Past(s: seq<byte>, n: nat): seq<byte>
    requires n <= |s|
  {
    if n < |s| && s[n] == SLASH then s[n + 1..] else s[n..]
  }

  function LastSlash(out: seq<byte>, j: nat): (r: nat)
    requires j < |out|
    ensures r <= j
  {
    if j > 0 && out[j] != SLASH then LastSlash(out, j - 1) else j
  }

  function Pop(out: seq<byte>): (r: seq<byte>)
    ensures |r| <= |out|
  {
    if |out| > 1 then out[..LastSlash(out, |out| - 2) + 1] else out
  }

  function Run(s: seq<byte>, out: seq<byte>, slash: bool, cap: nat): seq<byte>
    decreases |s|
  {
    if |s| == 0 || |out| + 1 >= cap then out
    else if s[0] == SLASH then Run(s[1..], if slash then out else out + [SLASH], true, cap)
    else if AtUp(s) then Run(Past(s, 2), Pop(out), false, cap)
    else if AtHere(s) then Run(Past(s, 1), out, slash, cap)
    else Run(s[1..], out + [s[0]], false, cap)
  }

  function Trim(out: seq<byte>): seq<byte> {
    if |out| > 1 && out[|out| - 1] == SLASH then out[..|out| - 1] else out
  }

  /** The normalised path, in a buffer of cap bytes. */
  function Normal(path: seq<byte>, cap: nat): seq<byte> {
    if |path| > 0 && path[0] == SLASH then Trim(Run(path[1..], [SLASH], true, cap)) else Trim(Run(path, [], false, cap))
  }

  method Back(buf: array<byte>, j: nat) returns (k: nat)
    requires j <= buf.Length
    ensures k <= j && buf[..k] == Pop(buf[..j])
  {
    k := j;
    if j > 1 {
      k := j - 2;
      ghost var out := buf[..j];
      while k > 0 && buf[k] != SLASH
        invariant k <= j - 2 && LastSlash(out, j - 2) == LastSlash(out, k)
      {
        k := k - 1;
      }
      k := k + 1;
      assert buf[..k] == out[..k];
    }
  }

  /** The machine stands at position i with j bytes written, and `all` is what it ends up with. */
  ghost predicate Stands(path: seq<byte>, buf: array<byte>, i: nat, j: nat, slash: bool, all: seq<byte>)
    reads buf
  {
    && i <= |path| && j <= buf.Length && (buf.Length > 1 ==> j < buf.Length)
    && all == Run(path[i..], buf[..j], slash, buf.Length)
  }

  /** One turn of the source's loop. */
  method Advance(path: seq<byte>, buf: array<byte>, i: nat, j: nat, slash: bool, ghost all: seq<byte>)
    returns (i': nat, j': nat, slash': bool)
    requires Stands(path, buf, i, j, slash, all) && i < |path| && j < buf.Length - 1
    modifies buf
    ensures i < i' && Stands(path, buf, i', j', slash', all)
  {
    ghost var s, out := path[i..], buf[..j];
    i', j', slash' := i + 1, j, slash;
    if path[i] == SLASH {
      if !slash {
        buf[j] := SLASH;
        j', slash' := j + 1, true;
        assert buf[..j'] == out + [SLASH];
      }
      assert path[i'..] == s[1..];
    } else if path[i] == DOT && i + 1 < |path| && path[i + 1] == DOT && (i + 2 == |path| || path[i + 2] == SLASH) {
      assert s[..2] == UP;
      j' := Back(buf, j);
      i', slash' := if i + 2 < |path| then i + 3 else i + 2, false;
      assert path[i'..] == Past(s, 2);
    } else if path[i] == DOT && (i + 1 == |path| || path[i + 1] == SLASH) {
      assert !AtUp(s);
      i' := if i + 1 < |path| then i + 2 else i + 1;
      assert path[i'..] == Past(s, 1);
    } else {
      assert !AtUp(s) && !AtHere(s);
      buf[j] := path[i];
      j', slash' := j + 1, false;
      assert path[i'..] == s[1..] && buf[..j'] == out + [s[0]];
    }
  }

  /** The source's loop, writing into a fixed buffer that ends up holding the result and a NUL. For an
      absolute path in a buffer of one byte the slash fills it, and the NUL belongs behind its end. */
  method PathNormalize(path: seq<byte>, buf: array<byte>) returns (ok: bool, j: nat)
    requires 0 !in path
    modifies buf
    ensures ok == (buf.Length > 0)
    ensures ok ==> j <= buf.Length && buf[..j] == Normal(path, buf.Length) && (j < buf.Length ==> buf[j] == 0)
    ensures ok ==> (j == buf.Length <==> buf.Length == 1 && |path| > 0 && path[0] == SLASH)
  {
    j := 0;
    ok := buf.Length > 0;
    if !ok {
      return;
    }
    var i, slash := 0, false;
    if |path| > 0 && path[0] == SLASH {
      buf[0] := SLASH;
      i, j, slash := 1, 1, true;
    }
    assert i == 0 ==> path[i..] == path && buf[..j] == [];
    assert i == 1 ==> buf[..j] == [SLASH];
    ghost var all := Run(path[i..], buf[..j], slash, buf.Length);
    while i < |path| && j < buf.Length - 1
      invariant buf.Length == 1 ==> i <= 1 && j == i && (i == 0 ==> |path| == 0 || path[0] != SLASH)
      invariant Stands(path, buf, i, j, slash, all)
      decreases |path| - i
    {
      i, j, slash := Advance(path, buf, i, j, slash, all);
    }
    assert all == buf[..j];
    if j > 1 && buf[j - 1] == SLASH {
      j := j - 1;
    }
    assert buf[..j] == Trim(all);
    if j < buf.Length {
      buf[j] := 0;
    }
  }

  // ---------------------------------------------------------------- the reference

  function Popped(stack: seq<seq<byte>>): seq<seq<byte>> { if |stack| == 0 then stack else stack[..|stack| - 1] }

  function Reduce(cs: seq<seq<byte>>, stack: seq<seq<byte>>): seq<seq<byte>>
    decreases |cs|
  {
    if |cs| == 0 then stack
    else if cs[0] == HERE then Reduce(cs[1..], stack)
    else if cs[0] == UP then Reduce(cs[1..], Popped(stack))
    else Reduce(cs[1..], stack + [cs[0]])
  }

  function Join(cs: seq<seq<byte>>): seq<byte> {
    if |cs| == 0 then [] else [SLASH] + cs[0] + Join(cs[1..])
  }

  function Render(cs: seq<seq<byte>>): seq<byte> { if |cs| == 0 then [SLASH] else Join(cs) }

  /** Only "." and ".." end in a dot, and between a ".." and the next name there is one slash, or
      one more for each "." in between. `up` says that the last name other than "." was a "..". */
  predicate Clean(s: seq<byte>, up: bool)
    decreases |s|
  {
    if |s| == 0 then true
    else if s[0] == SLASH then !up && Clean(s[1..], false)
    else
      var n := SlashAt(s);
      if s[..n] == UP then Clean(Past(s, n), true)
      else if s[..n] == HERE then Clean(Past(s, n), up)
      else s[n - 1] != DOT && Clean(s[n..], false)
  }

  predicate Plain(c: seq<byte>) { |c| > 0 && SLASH !in c }

  predicate AllPlain(cs: seq<seq<byte>>) { forall i :: 0 <= i < |cs| ==> Plain(cs[i]) }

  // ---------------------------------------------------------------- one token at a time

  /** Where the machine stands between tokens: behind a slash, behind "../", or behind a name. */
  datatype Mode = Open | Up | Name

  function Out(stack: seq<seq<byte>>, m: Mode): seq<byte> {
    if m.Name? then Join(stack) else Join(stack) + [SLASH]
  }

  function RunAt(s: seq<byte>, stack: seq<seq<byte>>, m: Mode, cap: nat): seq<byte> {
    Run(s, Out(stack, m), m.Open?, cap)
  }

  lemma {:induction false} JoinSnoc(cs: seq<seq<byte>>, c: seq<byte>)
    ensures Join(cs + [c]) == Join(cs) + [SLASH] + c
    decreases |cs|
  {
    if |cs| > 0 {
      JoinSnoc(cs[1..], c);
      assert (cs + [c])[1..] == cs[1..] + [c];
      var x, y, z := [SLASH] + cs[0], Join(cs[1..]), [SLASH] + c;
      assert y + [SLASH] + c == y + z && x + (y + z) == x + y + z && x + y + [SLASH] + c == x + y + z;
    } else {
      assert cs + [c] == [c] && [c][1..] == [];
    }
  }

  lemma {:induction false} LastSlashIs(out: seq<byte>, m: nat, j: nat)
    requires m <= j < |out| && out[m] == SLASH && forall k :: m < k <= j ==> out[k] != SLASH
    ensures LastSlash(out, j) == m
    decreases j
  {
    if m < j {
      LastSlashIs(out, m, j - 1);
    }
  }

  /** ".." takes the last name, and the slash behind it, off the output. */
  lemma PopIs(stack: seq<seq<byte>>)
    requires AllPlain(stack)
    ensures Pop(Join(stack) + [SLASH]) == Join(Popped(stack)) + [SLASH]
  {
    if |stack| > 0 {
      var init, c := stack[..|stack| - 1], stack[|stack| - 1];
      JoinSnoc(init, c);
      assert stack == init + [c];
      var out, m := Join(init) + [SLASH] + c + [SLASH], |Join(init)|;
      forall k | m < k <= |out| - 2 ensures out[k] != SLASH {
        assert out[k] == c[k - m - 1];
      }
      LastSlashIs(out, m, |out| - 2);
      assert out[..m + 1] == Join(init) + [SLASH];
    }
  }

  /** A name that does not end in a dot is copied whole. */
  lemma {:induction false} CopyName(s: seq<byte>, n: nat, out: seq<byte>, slash: bool, cap: nat)
    requires 0 < n <= |s| && SLASH !in s[..n] && (n < |s| ==> s[n] == SLASH) && s[n - 1] != DOT
    requires |out| + |s| < cap
    ensures Run(s, out, slash, cap) == Run(s[n..], out + s[..n], false, cap)
    decreases n
  {
    assert forall k :: 0 <= k < n ==> s[k] == s[..n][k];
    assert !AtUp(s) && !AtHere(s);
    if n == 1 {
      assert out + s[..1] == out + [s[0]];
    } else {
      assert s[1..][..n - 1] == s[..n][1..] && s[1..][n - 1..] == s[n..];
      CopyName(s[1..], n - 1, out + [s[0]], false, cap);
      assert out + [s[0]] + s[1..][..n - 1] == out + s[..n];
    }
  }

  function Meets(s: seq<byte>, stack: seq<seq<byte>>, m: Mode, cap: nat): bool {
    Trim(RunAt(s, stack, m, cap)) == Render(Reduce(Components(s), stack))
  }

  function Room(s: seq<byte>, stack: seq<seq<byte>>, m: Mode): nat { |Out(stack, m)| + |s| + 1 }

  lemma SlashStep(s: seq<byte>, stack: seq<seq<byte>>, m: Mode, cap: nat)
    requires |s| > 0 && s[0] == SLASH && !m.Up? && Room(s, stack, m) <= cap
    ensures Meets(s, stack, m, cap) == Meets(s[1..], stack, Open, cap)
    ensures Room(s[1..], stack, Open) <= cap
  {
  }

  lemma UpStep(s: seq<byte>, stack: seq<seq<byte>>, m: Mode, cap: nat)
    requires AllPlain(stack) && !m.Name? && Room(s, stack, m) <= cap
    requires |s| > 0 && s[0] != SLASH && s[..SlashAt(s)] == UP
    ensures Meets(s, stack, m, cap) == Meets(Past(s, 2), Popped(stack), Up, cap)
    ensures Room(Past(s, 2), Popped(stack), Up) <= cap
  {
    UpRuns(s, stack, m, cap);
    PastKeeps(s, 2);
  }

  lemma UpRuns(s: seq<byte>, stack: seq<seq<byte>>, m: Mode, cap: nat)
    requires AllPlain(stack) && !m.Name? && Room(s, stack, m) <= cap
    requires |s| > 0 && s[0] != SLASH && s[..SlashAt(s)] == UP
    ensures |s| >= 2 && RunAt(s, stack, m, cap) == RunAt(Past(s, 2), Popped(stack), Up, cap)
    ensures Room(Past(s, 2), Popped(stack), Up) <= cap
  {
    assert AtUp(s) by {
      assert s[..2] == UP;
    }
    PopIs(stack);
  }

  lemma HereStep(s: seq<byte>, stack: seq<seq<byte>>, m: Mode, cap: nat)
    requires !m.Name? && Room(s, stack, m) <= cap
    requires |s| > 0 && s[0] != SLASH && s[..SlashAt(s)] == HERE
    ensures Meets(s, stack, m, cap) == Meets(Past(s, 1), stack, m, cap) && Room(Past(s, 1), stack, m) <= cap
  {
    assert s[0] == s[..1][0] && AtHere(s) && !AtUp(s);
    PastKeeps(s, 1);
  }

  predicate AtName(s: seq<byte>) { |s| > 0 && s[0] != SLASH && s[SlashAt(s) - 1] != DOT }

  lemma NameRun(s: seq<byte>, stack: seq<seq<byte>>, m: Mode, cap: nat)
    requires !m.Name? && Room(s, stack, m) <= cap && AtName(s)
    ensures var n := SlashAt(s); var more := stack + [s[..n]];
            RunAt(s, stack, m, cap) == RunAt(s[n..], more, Name, cap) && Room(s[n..], more, Name) == Room(s, stack, m)
  {
    var n := SlashAt(s);
    assert SLASH !in s[..n];
    CopyName(s, n, Out(stack, m), m.Open?, cap);
    JoinSnoc(stack, s[..n]);
  }

  lemma NameReduce(s: seq<byte>, stack: seq<seq<byte>>)
    requires AtName(s)
    ensures var n := SlashAt(s); Reduce(Components(s), stack) == Reduce(Components(s[n..]), stack + [s[..n]])
  {
    var n := SlashAt(s);
    var c, cs := s[..n], Components(s);
    assert c[n - 1] != DOT && c != UP && c != HERE;
    assert cs[0] == c && cs[1..] == Components(s[n..]);
  }

  lemma NameStep(s: seq<byte>, stack: seq<seq<byte>>, m: Mode, cap: nat)
    requires !m.Name? && Room(s, stack, m) <= cap && AtName(s)
    ensures var n := SlashAt(s); var more := stack + [s[..n]];
            Meets(s, stack, m, cap) == Meets(s[n..], more, Name, cap) && Room(s[n..], more, Name) == Room(s, stack, m)
  {
    NameRun(s, stack, m, cap);
    NameReduce(s, stack);
  }

  lemma PastKeeps(s: seq<byte>, n: nat)
    requires n <= |s|
    ensures Components(s[n..]) == Components(Past(s, n)) && |Past(s, n)| <= |s| - n
  {
    if n < |s| && s[n] == SLASH {
      assert s[n..][1..] == s[n + 1..];
    }
  }

  lemma {:induction false} RunShort(s: seq<byte>, out: seq<byte>, slash: bool, cap: nat)
    ensures |Run(s, out, slash, cap)| <= |out| + |s|
    decreases |s|
  {
    if |s| > 0 && |out| + 1 < cap {
      if s[0] == SLASH {
        RunShort(s[1..], if slash then out else out + [SLASH], true, cap);
      } else if AtUp(s) {
        RunShort(Past(s, 2), Pop(out), false, cap);
      } else if AtHere(s) {
        RunShort(Past(s, 1), out, slash, cap);
      } else {
        RunShort(s[1..], out + [s[0]], false, cap);
      }
    }
  }

  // ---------------------------------------------------------------- clean paths

  lemma {:induction false} CleanMeets(s: seq<byte>, stack: seq<seq<byte>>, m: Mode, cap: nat)
    requires Clean(s, m.Up?) && AllPlain(stack) && Room(s, stack, m) <= cap
    requires m.Name? ==> |stack| > 0 && (|s| == 0 || s[0] == SLASH)
    ensures Meets(s, stack, m, cap)
    decreases |s|
  {
    if |s| == 0 {
      EndMeets(stack, m, cap);
    } else if s[0] == SLASH {
      SlashStep(s, stack, m, cap);
      CleanMeets(s[1..], stack, Open, cap);
    } else {
      var n := SlashAt(s);
      if s[..n] == UP {
        UpStep(s, stack, m, cap);
        CleanMeets(Past(s, 2), Popped(stack), Up, cap);
      } else if s[..n] == HERE {
        HereStep(s, stack, m, cap);
        CleanMeets(Past(s, 1), stack, m, cap);
      } else {
        NameStep(s, stack, m, cap);
        assert Plain(s[..n]);
        CleanMeets(s[n..], stack + [s[..n]], Name, cap);
      }
    }
  }

  lemma EndMeets(stack: seq<seq<byte>>, m: Mode, cap: nat)
    requires AllPlain(stack) && (m.Name? ==> |stack| > 0)
    ensures Meets([], stack, m, cap)
  {
    if |stack| > 0 {
      var init, c := stack[..|stack| - 1], stack[|stack| - 1];
      assert stack == init + [c];
      JoinSnoc(init, c);
      assert Join(stack)[|Join(stack)| - 1] == c[|c| - 1];
    }
  }

  predicate Absolute(path: seq<byte>) { |path| > 0 && path[0] == SLASH }

  /** What path_normalize promises for an absolute path. */
  predicate Right(path: seq<byte>, cap: nat) { Normal(path, cap) == Render(Reduce(Components(path), [])) }

  lemma RightIsMeets(path: seq<byte>, cap: nat)
    requires Absolute(path)
    ensures Right(path, cap) == Meets(path[1..], [], Open, cap)
  {
    assert Out([], Open) == [SLASH];
  }

  lemma {:induction false} RunAbsolute(s: seq<byte>, out: seq<byte>, slash: bool, cap: nat)
    requires Absolute(out)
    ensures Absolute(Run(s, out, slash, cap))
    decreases |s|
  {
    if |s| > 0 && |out| + 1 < cap {
      if s[0] == SLASH {
        RunAbsolute(s[1..], if slash then out else out + [SLASH], true, cap);
      } else if AtUp(s) {
        RunAbsolute(Past(s, 2), Pop(out), false, cap);
      } else if AtHere(s) {
        RunAbsolute(Past(s, 1), out, slash, cap);
      } else {
        RunAbsolute(s[1..], out + [s[0]], false, cap);
      }
    }
  }

  /** An absolute path stays absolute, clean or not. */
  lemma NormalAbsolute(path: seq<byte>, cap: nat)
    requires Absolute(path)
    ensures Absolute(Normal(path, cap))
  {
    RunAbsolute(path[1..], [SLASH], true, cap);
  }

  /** Every clean absolute path that fits the buffer becomes its components, reduced on a stack. */
  lemma NormalReduces(path: seq<byte>, cap: nat)
    requires Absolute(path) && |path| < cap && Clean(path[1..], false)
    ensures Normal(path, cap) == Render(Reduce(Components(path), []))
  {
    RightIsMeets(path, cap);
    CleanMeets(path[1..], [], Open, cap);
  }

  // ---------------------------------------------------------------- normal forms

  predicate Ordinary(c: seq<byte>) { Plain(c) && c[|c| - 1] != DOT }

  predicate AllOrdinary(cs: seq<seq<byte>>) { forall i :: 0 <= i < |cs| ==> Ordinary(cs[i]) }

  lemma {:induction false} CleanComponents(s: seq<byte>, up: bool, stack: seq<seq<byte>>)
    requires Clean(s, up) && AllOrdinary(stack)
    ensures AllOrdinary(Reduce(Components(s), stack))
    decreases |s|
  {
    if |s| > 0 {
      var n := SlashAt(s);
      if s[0] == SLASH {
        CleanComponents(s[1..], false, stack);
      } else if s[..n] == UP {
        PastKeeps(s, n);
        CleanComponents(Past(s, n), true, Popped(stack));
      } else if s[..n] == HERE {
        PastKeeps(s, n);
        CleanComponents(Past(s, n), up, stack);
      } else {
        assert Ordinary(s[..n]);
        CleanComponents(s[n..], false, stack + [s[..n]]);
        assert Components(s)[1..] == Components(s[n..]);
      }
    }
  }

  lemma HeadOf(c: seq<byte>, rest: seq<byte>)
    requires Plain(c) && (|rest| == 0 || rest[0] == SLASH)
    ensures SlashAt(c + rest) == |c| && (c + rest)[..|c|] == c && (c + rest)[|c|..] == rest
  {
    var s := c + rest;
    forall k | 0 <= k < |c| ensures s[k] != SLASH {
      assert s[k] == c[k];
    }
    SlashAtIs(s, |c|);
  }

  lemma Unslashed(c: seq<byte>, rest: seq<byte>)
    ensures ([SLASH] + c + rest)[1..] == c + rest
  {
  }

  lemma JoinHead(cs: seq<seq<byte>>)
    requires |cs| > 0 && AllOrdinary(cs)
    ensures var s, n := Join(cs)[1..], |cs[0]|;
            n <= |s| && SlashAt(s) == n && s[..n] == cs[0] && s[n..] == Join(cs[1..])
  {
    assert Ordinary(cs[0]);
    Unslashed(cs[0], Join(cs[1..]));
    HeadOf(cs[0], Join(cs[1..]));
  }

  /** The components of a rendered stack are the stack, and rendering leaves it clean. */
  lemma {:induction false} JoinBack(cs: seq<seq<byte>>)
    requires AllOrdinary(cs)
    ensures Components(Join(cs)) == cs && Clean(Join(cs), false)
    ensures |cs| > 0 ==> Clean(Join(cs)[1..], false)
    decreases |cs|
  {
    if |cs| > 0 {
      JoinHead(cs);
      JoinBack(cs[1..]);
    }
  }

  lemma {:induction false} OrdinaryReduce(cs: seq<seq<byte>>, stack: seq<seq<byte>>)
    requires AllOrdinary(cs)
    ensures Reduce(cs, stack) == stack + cs
    decreases |cs|
  {
    if |cs| > 0 {
      assert Ordinary(cs[0]);
      OrdinaryReduce(cs[1..], stack + [cs[0]]);
      assert stack + [cs[0]] + cs[1..] == stack + cs;
    }
  }

  /** A normalised path has no ".", "..", or empty component left, and is its own normal form. */
  lemma NormalIsNormal(path: seq<byte>, cap: nat)
    requires Absolute(path) && |path| < cap && Clean(path[1..], false)
    ensures var q := Normal(path, cap);
            && Absolute(q) && q == Render(Components(q)) && AllOrdinary(Components(q))
            && |q| <= |path| && Normal(q, cap) == q
  {
    var cs := Reduce(Components(path), []);
    NormalReduces(path, cap);
    CleanComponents(path[1..], false, []);
    JoinBack(cs);
    OrdinaryReduce(cs, []);
    var q := Normal(path, cap);
    assert |cs| == 0 ==> q[1..] == [];
    assert Components(q) == cs && [] + cs == cs;
    RunShort(path[1..], [SLASH], true, cap);
    NormalReduces(q, cap);
  }

  // ---------------------------------------------------------------- exactly the clean paths

  const NEXT: seq<byte> := [110]

  predicate EndsOpen(s: seq<byte>, k: nat, open: bool)
    requires k <= |s|
  {
    if k == 0 then open else s[k - 1] == SLASH
  }

  /** Between two components, or at the end. */
  predicate Boundary(s: seq<byte>, k: nat, open: bool) {
    k <= |s| && (k == |s| || s[k] == SLASH || EndsOpen(s, k, open))
  }

  /** The path cut at k, with one more name behind it. */
  function Follow(s: seq<byte>, k: nat, open: bool): seq<byte>
    requires k <= |s|
  {
    s[..k] + (if EndsOpen(s, k, open) then NEXT else [SLASH] + NEXT)
  }

  lemma FollowStep(s: seq<byte>, m: nat, k: nat, open: bool)
    requires 0 < m <= |s| && k <= |s| - m
    ensures var o := s[m - 1] == SLASH;
            Follow(s, m + k, open) == s[..m] + Follow(s[m..], k, o)
            && (Boundary(s, m + k, open) == Boundary(s[m..], k, o))
  {
    assert s[..m + k] == s[..m] + s[m..][..k];
  }

  lemma FollowSlash(s: seq<byte>, k: nat, open: bool)
    requires 0 < k <= |s| && s[0] == SLASH
    ensures var t := Follow(s, k, open); t[0] == SLASH && t[1..] == Follow(s[1..], k - 1, true)
    ensures Boundary(s, k, open) == Boundary(s[1..], k - 1, true)
  {
    FollowStep(s, 1, k - 1, open);
  }

  /** A component is read the same whatever comes behind the slash that ends it. */
  lemma FollowName(s: seq<byte>, n: nat, k: nat, open: bool)
    requires |s| > 0 && s[0] != SLASH && n == SlashAt(s) && n <= k <= |s|
    ensures var t := Follow(s, k, open);
            && |t| > n > 0 && t[0] == s[0] && SlashAt(t) == n && t[..n] == s[..n]
            && t[n..] == Follow(s[n..], k - n, false)
            && (k > n ==> Past(t, n) == Follow(Past(s, n), k - n - 1, true))
            && (k == n ==> Past(t, n) == NEXT)
  {
    var t := Follow(s, k, open);
    FollowStep(s, n, k - n, open);
    assert t[..n] == s[..n];
    assert forall i :: 0 <= i < n ==> t[i] == t[..n][i];
    SlashAtIs(t, n);
    if k > n {
      FollowStep(s, n + 1, k - n - 1, open);
      assert s[..n + 1][n] == SLASH;
    }
  }

  lemma CleanName(s: seq<byte>, t: seq<byte>, n: nat, up: bool)
    requires |s| > 0 && |t| > 0 && s[0] != SLASH && t[0] != SLASH && n == SlashAt(s) == SlashAt(t) && s[..n] == t[..n]
    requires Clean(s, up) && (s[..n] == UP ==> Clean(Past(t, n), true)) && (s[..n] == HERE ==> Clean(Past(t, n), up))
    requires s[..n] == UP || s[..n] == HERE || Clean(t[n..], false)
    ensures Clean(t, up)
  {
    assert s[..n][n - 1] == s[n - 1] && t[..n][n - 1] == t[n - 1];
  }

  lemma BoundaryBehindName(s: seq<byte>, k: nat, open: bool)
    requires |s| > 0 && s[0] != SLASH && Boundary(s, k, open) && k > 0
    ensures k >= SlashAt(s)
  {
  }

  /** A clean path stays clean where a name is put behind one of its boundaries. */
  lemma {:induction false} CleanFollow(s: seq<byte>, k: nat, up: bool, open: bool)
    requires Clean(s, up) && Boundary(s, k, open) && (up ==> open)
    ensures Clean(Follow(s, k, open), up)
    decreases |s|
  {
    NextClean(up);
    NextClean(true);
    NextClean(false);
    if k == 0 {
      assert ([SLASH] + NEXT)[1..] == NEXT;
      assert Follow(s, k, open) == if open then NEXT else [SLASH] + NEXT;
    } else if s[0] == SLASH {
      FollowSlash(s, k, open);
      CleanFollow(s[1..], k - 1, false, true);
    } else {
      CleanFollowName(s, k, up, open);
    }
  }

  lemma {:induction false} CleanFollowName(s: seq<byte>, k: nat, up: bool, open: bool)
    requires |s| > 0 && s[0] != SLASH && k > 0
    requires Clean(s, up) && Boundary(s, k, open) && (up ==> open)
    ensures Clean(Follow(s, k, open), up)
    decreases |s|, 0
  {
    var n := SlashAt(s);
    NextClean(true);
    NextClean(up);
    BoundaryBehindName(s, k, open);
    FollowName(s, n, k, open);
    FollowStep(s, n, k - n, open);
    if k > n {
      PastBoundary(s, n, k, open);
    }
    if s[..n] == UP {
      if k > n { CleanFollow(Past(s, n), k - n - 1, true, true); }
    } else if s[..n] == HERE {
      if k > n { CleanFollow(Past(s, n), k - n - 1, up, true); }
    } else {
      CleanFollow(s[n..], k - n, false, false);
    }
    CleanName(s, Follow(s, k, open), n, up);
  }

  lemma NextClean(up: bool)
    ensures Clean(NEXT, up)
  {
    SlashAtIs(NEXT, 1);
    assert NEXT[..1] == NEXT && NEXT[1..] == [];
  }

  lemma PastBoundary(s: seq<byte>, n: nat, k: nat, open: bool)
    requires n < k <= |s| && s[n] == SLASH
    ensures Boundary(s, k, open) == Boundary(Past(s, n), k - n - 1, true)
  {
    FollowStep(s, n + 1, k - n - 1, open);
  }

  /** A name that ends in a dot does not come through whole. */
  lemma {:induction false} DotLoses(s: seq<byte>, n: nat, out: seq<byte>, slash: bool, cap: nat)
    requires 0 < n <= |s| && SLASH !in s[..n] && (n < |s| ==> s[n] == SLASH) && s[n - 1] == DOT
    ensures |Run(s, out, slash, cap)| < |out| + |s|
    decreases n
  {
    assert s[0] == s[..n][0];
    if |out| + 1 < cap {
      if AtUp(s) {
        RunShort(Past(s, 2), Pop(out), false, cap);
      } else if AtHere(s) {
        RunShort(Past(s, 1), out, slash, cap);
      } else {
        assert s[1..][..n - 1] == s[..n][1..];
        DotLoses(s[1..], n - 1, out + [s[0]], false, cap);
      }
    }
  }

  lemma NextComponents()
    ensures Components(NEXT) == Components([SLASH] + NEXT) == [NEXT]
  {
    SlashAtIs(NEXT, 1);
    assert NEXT[..1] == NEXT && NEXT[1..] == [];
    assert ([SLASH] + NEXT)[1..] == NEXT;
  }

  lemma NextReduces(stack: seq<seq<byte>>)
    ensures Reduce([NEXT], stack) == stack + [NEXT] && Render(stack + [NEXT]) == Join(stack) + [SLASH] + NEXT
  {
    assert Ordinary(NEXT);
    OrdinaryReduce([NEXT], stack);
    JoinSnoc(stack, NEXT);
  }

  lemma DotCut(t: seq<byte>, n: nat, stack: seq<seq<byte>>, m: Mode, cap: nat)
    requires |t| > 0 && t[0] != SLASH && n == SlashAt(t) && t[n..] == [SLASH] + NEXT && !m.Name?
    requires t[n - 1] == DOT && t[..n] != UP && t[..n] != HERE
    ensures !Meets(t, stack, m, cap)
  {
    var c := t[..n];
    assert SLASH !in c;
    DotLoses(t, n, Out(stack, m), m.Open?, cap);
    NextComponents();
    var cs := Components(t);
    assert cs == [c] + [NEXT] && cs[0] == c && cs[1..] == [NEXT];
    assert Reduce(cs, stack) == Reduce([NEXT], stack + [c]);
    NextReduces(stack + [c]);
    JoinSnoc(stack, c);
  }

  lemma SlashCut(stack: seq<seq<byte>>, cap: nat)
    requires |Join(stack)| + 4 <= cap
    ensures !Meets([SLASH] + NEXT, stack, Up, cap)
  {
    var t := [SLASH] + NEXT;
    assert t[1..] == NEXT && NEXT[1..] == [];
    var out := Out(stack, Up) + [SLASH];
    assert RunAt(t, stack, Up, cap) == Run(NEXT, out, true, cap);
    assert Run(NEXT, out, true, cap) == out + NEXT;
    NextComponents();
    NextReduces(stack);
  }

  /** The first thing that is not clean is followed by one more name and nothing else. */
  predicate Spoiled(t: seq<byte>, up: bool)
    decreases |t|
  {
    if |t| == 0 then false
    else if t[0] == SLASH then if up then t == [SLASH] + NEXT else Spoiled(t[1..], false)
    else
      var n := SlashAt(t);
      if t[..n] == UP then Spoiled(Past(t, n), true)
      else if t[..n] == HERE then Spoiled(Past(t, n), up)
      else if t[n - 1] == DOT then t[n..] == [SLASH] + NEXT
      else Spoiled(t[n..], false)
  }

  lemma {:induction false} SpoiledFails(t: seq<byte>, stack: seq<seq<byte>>, m: Mode, cap: nat)
    requires Spoiled(t, m.Up?) && AllPlain(stack) && Room(t, stack, m) <= cap && (m.Name? ==> t[0] == SLASH)
    ensures !Meets(t, stack, m, cap)
    decreases |t|
  {
    if t[0] == SLASH {
      if m.Up? {
        SlashCut(stack, cap);
      } else {
        SlashStep(t, stack, m, cap);
        SpoiledFails(t[1..], stack, Open, cap);
      }
    } else {
      var n := SlashAt(t);
      if t[..n] == UP {
        UpStep(t, stack, m, cap);
        SpoiledFails(Past(t, 2), Popped(stack), Up, cap);
      } else if t[..n] == HERE {
        HereStep(t, stack, m, cap);
        SpoiledFails(Past(t, 1), stack, m, cap);
      } else if t[n - 1] == DOT {
        DotCut(t, n, stack, m, cap);
      } else {
        NameStep(t, stack, m, cap);
        assert Plain(t[..n]);
        SpoiledFails(t[n..], stack + [t[..n]], Name, cap);
      }
    }
  }

  lemma SpoiledName(s: seq<byte>, t: seq<byte>, n: nat, up: bool)
    requires |s| > 0 && |t| > 0 && s[0] != SLASH && t[0] != SLASH && n == SlashAt(s) == SlashAt(t) && s[..n] == t[..n]
    requires s[..n] == UP ==> Spoiled(Past(t, n), true)
    requires s[..n] == HERE ==> Spoiled(Past(t, n), up)
    requires s[..n] != UP && s[..n] != HERE ==> if s[n - 1] == DOT then t[n..] == [SLASH] + NEXT
             else Spoiled(t[n..], false)
    ensures Spoiled(t, up)
  {
    assert s[..n][n - 1] == s[n - 1] && t[..n][n - 1] == t[n - 1];
  }

  /** A path that is not clean is spoiled at one of its boundaries. */
  lemma {:induction false} BadCut(s: seq<byte>, up: bool, open: bool) returns (k: nat)
    requires !Clean(s, up) && (up ==> open)
    ensures Boundary(s, k, open) && Spoiled(Follow(s, k, open), up)
    decreases |s|
  {
    if s[0] == SLASH {
      if up {
        k := 1;
        assert Follow(s, 1, open) == [SLASH] + NEXT;
      } else {
        k := BadCut(s[1..], false, true);
        FollowSlash(s, k + 1, open);
        k := k + 1;
      }
    } else {
      k := BadName(s, up, open);
    }
  }

  lemma {:induction false} BadName(s: seq<byte>, up: bool, open: bool) returns (k: nat)
    requires |s| > 0 && !Clean(s, up) && (up ==> open) && s[0] != SLASH
    ensures Boundary(s, k, open) && Spoiled(Follow(s, k, open), up)
    decreases |s|, 1
  {
    var n := SlashAt(s);
    BadParts(s, up, n);
    if s[..n] == UP || s[..n] == HERE {
      k := BadPast(s, n, up, open);
    } else if s[n - 1] == DOT {
      k := n;
      BadAtDot(s, n, up, open);
    } else {
      k := BadBehind(s, n, up, open);
    }
  }

  lemma {:induction false} BadPast(s: seq<byte>, n: nat, up: bool, open: bool) returns (k: nat)
    requires |s| > 0 && s[0] != SLASH && n == SlashAt(s) < |s| && (s[..n] == UP || s[..n] == HERE)
    requires !Clean(Past(s, n), up || s[..n] == UP)
    ensures Boundary(s, k, open) && Spoiled(Follow(s, k, open), up)
    decreases |s|, 0
  {
    var j := BadCut(Past(s, n), up || s[..n] == UP, true);
    LiftPast(s, n, j, up, open);
    k := n + 1 + j;
  }

  lemma {:induction false} BadBehind(s: seq<byte>, n: nat, up: bool, open: bool) returns (k: nat)
    requires |s| > 0 && s[0] != SLASH && n == SlashAt(s) && s[..n] != UP && s[..n] != HERE && s[n - 1] != DOT
    requires !Clean(s[n..], false)
    ensures Boundary(s, k, open) && Spoiled(Follow(s, k, open), up)
    decreases |s|, 0
  {
    var j := BadCut(s[n..], false, false);
    LiftName(s, n, j, up, open);
    k := n + j;
  }

  /** What is not clean behind the first component. */
  lemma BadParts(s: seq<byte>, up: bool, n: nat)
    requires |s| > 0 && !Clean(s, up) && s[0] != SLASH && n == SlashAt(s)
    ensures 0 < n && (s[..n] == UP || s[..n] == HERE ==> n < |s| && !Clean(Past(s, n), up || s[..n] == UP))
    ensures s[..n] != UP && s[..n] != HERE && s[n - 1] != DOT ==> !Clean(s[n..], false)
  {
  }

  /** A dot behind a name spoils the path at once. */
  lemma BadAtDot(s: seq<byte>, n: nat, up: bool, open: bool)
    requires |s| > 0 && s[0] != SLASH && n == SlashAt(s) && s[..n] != UP && s[..n] != HERE && s[n - 1] == DOT
    ensures Boundary(s, n, open) && Spoiled(Follow(s, n, open), up)
  {
    FollowName(s, n, n, open);
    SpoiledName(s, Follow(s, n, open), n, up);
  }

  lemma LiftPast(s: seq<byte>, n: nat, k: nat, up: bool, open: bool)
    requires |s| > 0 && s[0] != SLASH && n == SlashAt(s) < |s| && (s[..n] == UP || s[..n] == HERE)
    requires Boundary(Past(s, n), k, true) && Spoiled(Follow(Past(s, n), k, true), up || s[..n] == UP)
    ensures Boundary(s, n + 1 + k, open) && Spoiled(Follow(s, n + 1 + k, open), up)
  {
    PastBoundary(s, n, n + 1 + k, open);
    FollowName(s, n, n + 1 + k, open);
    SpoiledName(s, Follow(s, n + 1 + k, open), n, up);
  }

  lemma LiftName(s: seq<byte>, n: nat, k: nat, up: bool, open: bool)
    requires |s| > 0 && s[0] != SLASH && n == SlashAt(s) && s[..n] != UP && s[..n] != HERE && s[n - 1] != DOT
    requires Boundary(s[n..], k, false) && Spoiled(Follow(s[n..], k, false), false)
    ensures Boundary(s, n + k, open) && Spoiled(Follow(s, n + k, open), up)
  {
    FollowStep(s, n, k, open);
    FollowName(s, n, n + k, open);
    SpoiledName(s, Follow(s, n + k, open), n, up);
  }

  /** The clean paths are exactly those behind whose every component boundary one more name
      normalises as it should. */
  lemma CleanIsExact(path: seq<byte>, cap: nat)
    requires Absolute(path) && |path| + 2 < cap
    ensures Clean(path[1..], false) <==>
            forall k :: 1 <= k && Boundary(path, k, false) ==> Right(Follow(path, k, false), cap)
  {
    if Clean(path[1..], false) {
      forall k | 1 <= k && Boundary(path, k, false) ensures Right(Follow(path, k, false), cap) {
        CleanGoesRight(path, k, cap);
      }
    } else {
      var k := UncleanGoesWrong(path, cap);
    }
  }

  lemma CleanGoesRight(path: seq<byte>, k: nat, cap: nat)
    requires Absolute(path) && |path| + 2 < cap && Clean(path[1..], false) && 1 <= k && Boundary(path, k, false)
    ensures Right(Follow(path, k, false), cap)
  {
    FollowSlash(path, k, false);
    CleanFollow(path[1..], k - 1, false, true);
    NormalReduces(Follow(path, k, false), cap);
  }

  lemma UncleanGoesWrong(path: seq<byte>, cap: nat) returns (k: nat)
    requires Absolute(path) && |path| + 2 < cap && !Clean(path[1..], false)
    ensures 1 <= k && Boundary(path, k, false) && !Right(Follow(path, k, false), cap)
  {
    var s := path[1..];
    k := BadCut(s, false, true);
    FollowSlash(path, k + 1, false);
    SpoiledFails(Follow(s, k, true), [], Open, cap);
    k := k + 1;
    RightIsMeets(Follow(path, k, false), cap);
  }

  /** "/x./y", "/a../b" and "/..//b": a dot behind a name takes the next slash or the name itself
      away, and a slash behind "../" is kept. */
  lemma UncleanPaths(cap: nat)
    requires cap > 6
    ensures Normal([47, 120, 46, 47, 121], cap) == [47, 120, 121]
    ensures Normal([47, 97, 46, 46, 47, 98], cap) == [47, 98]
    ensures Normal([47, 46, 46, 47, 47, 98], cap) == [47, 47, 98]
  {
    var x, y: seq<byte> := [47, 120], [121];
    assert [47, 120, 46, 47, 121][1..] == [120, 46, 47, 121] && [120, 46, 47, 121][1..] == [46, 47, 121];
    assert Past([46, 47, 121], 1) == y && y[1..] == [];
    assert Run([46, 47, 121], x, false, cap) == x + y;
    var a, b: seq<byte> := [47, 97], [98];
    assert [47, 97, 46, 46, 47, 98][1..] == [97, 46, 46, 47, 98] && [97, 46, 46, 47, 98][1..] == [46, 46, 47, 98];
    assert Past([46, 46, 47, 98], 2) == b && b[1..] == [] && Pop(a) == [47];
    assert Run([46, 46, 47, 98], a, false, cap) == [47] + b;
    assert [47, 46, 46, 47, 47, 98][1..] == [46, 46, 47, 47, 98] && Past([46, 46, 47, 47, 98], 2) == [47, 98];
    assert [47, 98][1..] == b && Run([47, 98], [47], false, cap) == [47, 47] + b;
  }
}
