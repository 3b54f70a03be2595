/**
 * What path_normalize makes of every absolute path, clean or not: the names it keeps, component by
 * component, and so exactly when that is the reduced path.
 */
module NormalizeExact {
  import opened Bytes
  import opened PathNames
  import opened Normalize

  /** The names written so far, and where the machine stands behind them. A name may be empty. */
  datatype Stand = Stand(names: seq<seq<byte>>, m: Mode)

  predicate SlashFree(names: seq<seq<byte>>) { forall i :: 0 <= i < |names| ==> SLASH !in names[i] }

  predicate StandOk(st: Stand) {
    SlashFree(st.names) && (st.m.Name? ==> |st.names| > 0 && |st.names[|st.names| - 1]| > 0)
  }

  /** How many characters at the end of a component act as "." or "..", whatever stands before them. */
  function DotsAtEnd(c: seq<byte>): (d: nat)
    ensures d <= |c|
  {
    if |c| == 0 || c[|c| - 1] != DOT then 0 else if |c| >= 2 && c[|c| - 2] == DOT then 2 else 1
  }

  /** A slash ends a name; behind "../" it makes an empty one. */
  function AfterSlash(st: Stand): Stand {
    if st.m.Up? then Stand(st.names + [[]], Open) else st.(m := Open)
  }

  /** Characters go onto the name that was left open, or make a new one. */
  function Written(st: Stand, q: seq<byte>): Stand
    requires StandOk(st)
  {
    if |q| == 0 then st
    else if st.m.Name? then
      var k := |st.names| - 1;
      Stand(st.names[..k] + [st.names[k] + q], Name)
    else Stand(st.names + [q], Name)
  }

  function AfterName(st: Stand, c: seq<byte>): Stand
    requires StandOk(st)
  {
    var d := DotsAtEnd(c);
    var w := Written(st, c[..|c| - d]);
    if d == 2 then Stand(Popped(w.names), Up) else w
  }

  /** What is left of s behind its first component; dots at its end take the slash behind them along. */
  function Behind(s: seq<byte>, n: nat): (r: seq<byte>)
    requires n <= |s|
    ensures |r| <= |s| - n
  {
    if DotsAtEnd(s[..n]) > 0 then Past(s, n) else s[n..]
  }

  lemma WrittenOk(st: Stand, q: seq<byte>)
    requires StandOk(st) && SLASH !in q
    ensures StandOk(Written(st, q))
  {
  }

  lemma AfterNameOk(st: Stand, c: seq<byte>)
    requires StandOk(st) && SLASH !in c
    ensures StandOk(AfterName(st, c))
  {
    WrittenOk(st, c[..|c| - DotsAtEnd(c)]);
  }

  /** The names kept of a path, token by token. */
  function Keep(s: seq<byte>, st: Stand): (r: Stand)
    requires StandOk(st)
    ensures StandOk(r)
    decreases |s|
  {
    if |s| == 0 then st
    else if s[0] == SLASH then Keep(s[1..], AfterSlash(st))
    else
      var n := SlashAt(s);
      AfterNameOk(st, s[..n]);
      Keep(Behind(s, n), AfterName(st, s[..n]))
  }

  // ---------------------------------------------------------------- the machine keeps these names

  /** Where neither "." nor ".." stands in front of a slash or the end, characters are copied. */
  lemma {:induction false} Copied(s: seq<byte>, k: nat, out: seq<byte>, slash: bool, cap: nat)
    requires 0 < k <= |s| && SLASH !in s[..k] && |out| + |s| < cap
    requires forall j :: 0 <= j < k ==> !AtUp(s[j..]) && !AtHere(s[j..])
    ensures Run(s, out, slash, cap) == Run(s[k..], out + s[..k], false, cap)
    decreases k
  {
    assert s[0..] == s && s[0] == s[..k][0];
    if k == 1 {
      assert out + s[..1] == out + [s[0]];
    } else {
      var t := s[1..];
      forall j | 0 <= j < k - 1 ensures !AtUp(t[j..]) && !AtHere(t[j..]) {
        assert t[j..] == s[j + 1..];
      }
      assert t[..k - 1] == s[..k][1..] && t[k - 1..] == s[k..];
      Copied(t, k - 1, out + [s[0]], false, cap);
      assert out + [s[0]] + t[..k - 1] == out + s[..k];
    }
  }

  lemma AtUpIs(t: seq<byte>)
    ensures AtUp(t) <==> |t| >= 2 && t[0] == DOT && t[1] == DOT && (|t| == 2 || t[2] == SLASH)
  {
    if |t| >= 2 {
      assert t[..2] == [t[0], t[1]];
    }
  }

  /** "." and ".." are seen in a component only at its end. */
  lemma DotsSeen(s: seq<byte>, n: nat, j: nat)
    requires |s| > 0 && n == SlashAt(s) && j < n
    ensures AtUp(s[j..]) <==> DotsAtEnd(s[..n]) == 2 && j == n - 2
    ensures AtHere(s[j..]) <==> DotsAtEnd(s[..n]) >= 1 && j == n - 1
  {
    AtUpIs(s[j..]);
  }

  lemma WrittenOut(st: Stand, q: seq<byte>)
    requires StandOk(st)
    ensures var w := Written(st, q); Out(w.names, w.m) == Out(st.names, st.m) + q
  {
    if |q| > 0 {
      if st.m.Name? {
        var k := |st.names| - 1;
        var init, last := st.names[..k], st.names[k];
        JoinSnoc(init, last + q);
        JoinSnoc(init, last);
        assert init + [last] == st.names;
        assert Join(init) + [SLASH] + (last + q) == Join(init) + [SLASH] + last + q;
      } else {
        JoinSnoc(st.names, q);
      }
    }
  }

  lemma PopText(base: seq<byte>, c: seq<byte>, tail: seq<byte>)
    requires SLASH !in c && (tail == [SLASH] || (tail == [] && |c| > 0))
    ensures Pop(base + [SLASH] + c + tail) == base + [SLASH]
  {
    var out, m := base + [SLASH] + c + tail, |base|;
    forall i | m < i <= |out| - 2 ensures out[i] != SLASH {
      assert out[i] == c[i - m - 1];
    }
    LastSlashIs(out, m, |out| - 2);
    assert out[..m + 1] == base + [SLASH];
  }

  /** ".." takes the last name off, with the slash behind it if there is one. */
  lemma PopNames(st: Stand)
    requires StandOk(st)
    ensures Pop(Out(st.names, st.m)) == Out(Popped(st.names), Up)
  {
    if |st.names| > 0 {
      var k, tail: seq<byte> := |st.names| - 1, if st.m.Name? then [] else [SLASH];
      JoinSnoc(st.names[..k], st.names[k]);
      assert st.names == st.names[..k] + [st.names[k]];
      PopText(Join(st.names[..k]), st.names[k], tail);
      assert Out(st.names, st.m) == Join(st.names) + tail;
    }
  }

  predicate Fits(s: seq<byte>, st: Stand, cap: nat) { |Out(st.names, st.m)| + |s| < cap }

  /** The machine, from where it stands. */
  function RunFrom(s: seq<byte>, st: Stand, cap: nat): seq<byte> { RunAt(s, st.names, st.m, cap) }

  lemma SlashKept(s: seq<byte>, st: Stand, cap: nat)
    requires |s| > 0 && s[0] == SLASH && StandOk(st) && Fits(s, st, cap)
    ensures RunFrom(s, st, cap) == RunFrom(s[1..], AfterSlash(st), cap) && Fits(s[1..], AfterSlash(st), cap)
  {
    if st.m.Up? {
      JoinSnoc(st.names, []);
      assert Join(st.names) + [SLASH] + [] == Join(st.names) + [SLASH];
    }
  }

  /** The part of a component before its closing dots. */
  lemma PartWritten(s: seq<byte>, n: nat, st: Stand, cap: nat)
    requires |s| > 0 && s[0] != SLASH && n == SlashAt(s) && StandOk(st) && Fits(s, st, cap)
    ensures var k := n - DotsAtEnd(s[..n]); var w := Written(st, s[..k]);
            RunFrom(s, st, cap) == RunFrom(s[k..], w, cap) && Fits(s[k..], w, cap)
  {
    var k := n - DotsAtEnd(s[..n]);
    if k > 0 {
      forall j | 0 <= j < k ensures !AtUp(s[j..]) && !AtHere(s[j..]) {
        DotsSeen(s, n, j);
      }
      assert SLASH !in s[..k];
      Copied(s, k, Out(st.names, st.m), st.m.Open?, cap);
      WrittenOut(st, s[..k]);
    } else {
      assert s[0..] == s;
    }
  }

  /** What closing dots do to the names. */
  function Acted(w: Stand, d: nat): Stand { if d == 2 then Stand(Popped(w.names), Up) else w }

  lemma DotsActed(s: seq<byte>, n: nat, d: nat, t: seq<byte>, w: Stand, cap: nat)
    requires |s| > 0 && n == SlashAt(s) && d == DotsAtEnd(s[..n]) > 0 && t == s[n - d..]
    requires StandOk(w) && Fits(t, w, cap)
    ensures RunFrom(t, w, cap) == RunFrom(Past(s, n), Acted(w, d), cap) && Fits(Past(s, n), Acted(w, d), cap)
  {
    DotsSeen(s, n, n - d);
    assert Past(t, d) == Past(s, n) && t[0] == s[n - d];
    if d == 2 {
      PopNames(w);
    }
  }

  lemma AfterNameIs(st: Stand, s: seq<byte>, n: nat, d: nat)
    requires StandOk(st) && n <= |s| && d == DotsAtEnd(s[..n])
    ensures AfterName(st, s[..n]) == Acted(Written(st, s[..n - d]), d)
    ensures Behind(s, n) == if d > 0 then Past(s, n) else s[n..]
  {
    assert s[..n][..n - d] == s[..n - d];
  }

  /** Going on from s at st comes to the same as going on from t at v, and there is room for both. */
  predicate Same(s: seq<byte>, st: Stand, t: seq<byte>, v: Stand, cap: nat) {
    RunFrom(s, st, cap) == RunFrom(t, v, cap) && Fits(t, v, cap)
  }

  lemma SameAgain(s: seq<byte>, st: Stand, t: seq<byte>, w: Stand, u: seq<byte>, v: Stand, cap: nat)
    requires Same(s, st, t, w, cap) && Same(t, w, u, v, cap)
    ensures Same(s, st, u, v, cap)
  {
  }

  lemma NameKept(s: seq<byte>, st: Stand, n: nat, cap: nat)
    requires |s| > 0 && s[0] != SLASH && n == SlashAt(s) && StandOk(st) && Fits(s, st, cap)
    ensures Same(s, st, Behind(s, n), AfterName(st, s[..n]), cap)
  {
    var d := DotsAtEnd(s[..n]);
    var t, w := s[n - d..], Written(st, s[..n - d]);
    PartWritten(s, n, st, cap);
    assert Same(s, st, t, w, cap);
    AfterNameIs(st, s, n, d);
    if d > 0 {
      WrittenOk(st, s[..n - d]);
      DotsActed(s, n, d, t, w, cap);
      SameAgain(s, st, t, w, Past(s, n), Acted(w, d), cap);
    }
  }

  lemma EndKept(st: Stand)
    requires StandOk(st)
    ensures Trim(Out(st.names, st.m)) == Render(st.names)
  {
    if |st.names| > 0 {
      var k := |st.names| - 1;
      JoinSnoc(st.names[..k], st.names[k]);
      assert st.names == st.names[..k] + [st.names[k]];
    }
  }

  lemma {:induction false} RunKeeps(s: seq<byte>, st: Stand, cap: nat)
    requires StandOk(st) && Fits(s, st, cap)
    ensures Trim(RunFrom(s, st, cap)) == Render(Keep(s, st).names)
    decreases |s|
  {
    if |s| == 0 {
      EndKept(st);
    } else if s[0] == SLASH {
      SlashKept(s, st, cap);
      RunKeeps(s[1..], AfterSlash(st), cap);
    } else {
      NameKept(s, st, SlashAt(s), cap);
      AfterNameOk(st, s[..SlashAt(s)]);
      RunKeeps(Behind(s, SlashAt(s)), AfterName(st, s[..SlashAt(s)]), cap);
    }
  }

  /** The names kept of a whole path. */
  function Kept(path: seq<byte>): (names: seq<seq<byte>>)
    requires Absolute(path)
    ensures SlashFree(names)
  {
    Keep(path[1..], Stand([], Open)).names
  }

  /** Every absolute path that fits the buffer, clean or not, becomes the names kept of it. */
  lemma NormalKeeps(path: seq<byte>, cap: nat)
    requires Absolute(path) && |path| < cap
    ensures Normal(path, cap) == Render(Kept(path))
  {
    assert Out([], Open) == [SLASH];
    RunKeeps(path[1..], Stand([], Open), cap);
  }

  // ---------------------------------------------------------------- when that is the reduced path

  lemma HeadAt(c: seq<byte>, rest: seq<byte>)
    requires SLASH !in c && (|rest| == 0 || rest[0] == SLASH)
    ensures SlashAt(c + rest) == |c| && (c + rest)[..|c|] == c && (c + rest)[|c|..] == rest
  {
    var s := c + rest;
    forall k | 0 <= k < |c| ensures s[k] != SLASH {
      assert s[k] == c[k];
    }
    SlashAtIs(s, |c|);
  }

  /** The text of names tells them apart. */
  lemma {:induction false} JoinTells(a: seq<seq<byte>>, b: seq<seq<byte>>)
    requires SlashFree(a) && SlashFree(b) && Join(a) == Join(b)
    ensures a == b
    decreases |a|
  {
    if |a| > 0 && |b| > 0 {
      Unslashed(a[0], Join(a[1..]));
      Unslashed(b[0], Join(b[1..]));
      HeadAt(a[0], Join(a[1..]));
      HeadAt(b[0], Join(b[1..]));
      JoinTells(a[1..], b[1..]);
      assert a == [a[0]] + a[1..] && b == [b[0]] + b[1..];
    }
  }

  const NAMELESS: seq<seq<byte>> := [[]]

  lemma OneEmptyName()
    ensures Join(NAMELESS) == [SLASH]
  {
    var none: seq<seq<byte>> := NAMELESS[1..];
    assert |none| == 0;
  }

  lemma RenderTells(a: seq<seq<byte>>, b: seq<seq<byte>>)
    requires SlashFree(a) && SlashFree(b) && Render(a) == Render(b)
    ensures a == b || (a == [] && b == NAMELESS) || (a == NAMELESS && b == [])
  {
    OneEmptyName();
    if |a| > 0 && |b| > 0 {
      JoinTells(a, b);
    } else if |a| > 0 {
      JoinTells(a, NAMELESS);
    } else if |b| > 0 {
      JoinTells(b, NAMELESS);
    }
  }

  lemma {:induction false} ComponentsPlain(s: seq<byte>)
    ensures AllPlain(Components(s))
    decreases |s|
  {
    if |s| > 0 {
      if s[0] == SLASH {
        ComponentsPlain(s[1..]);
      } else {
        ComponentsPlain(s[SlashAt(s)..]);
      }
    }
  }

  lemma {:induction false} ReducePlain(cs: seq<seq<byte>>, stack: seq<seq<byte>>)
    requires AllPlain(cs) && AllPlain(stack)
    ensures AllPlain(Reduce(cs, stack))
    decreases |cs|
  {
    if |cs| > 0 {
      assert Plain(cs[0]);
      ReducePlain(cs[1..], if cs[0] == HERE then stack else if cs[0] == UP then Popped(stack) else stack + [cs[0]]);
    }
  }

  /** The names a path stands for. */
  function Meant(path: seq<byte>): seq<seq<byte>> { Reduce(Components(path), []) }

  lemma MeantPlain(path: seq<byte>)
    ensures AllPlain(Meant(path)) && SlashFree(Meant(path)) && Meant(path) != NAMELESS
  {
    ComponentsPlain(path);
    ReducePlain(Components(path), []);
    if |Meant(path)| == 1 {
      assert Plain(Meant(path)[0]);
    }
  }

  /** A path comes out right if, and only if, the names kept of it are the names it stands for, or one
      empty name is kept where the path stands for the root. */
  lemma RightIff(path: seq<byte>, cap: nat)
    requires Absolute(path) && |path| < cap
    ensures Right(path, cap) <==> Kept(path) == Meant(path) || (Kept(path) == NAMELESS && Meant(path) == [])
  {
    NormalKeeps(path, cap);
    MeantPlain(path);
    if Right(path, cap) {
      RenderTells(Kept(path), Meant(path));
    }
    OneEmptyName();
  }

  // ---------------------------------------------------------------- paths that go nowhere up

  predicate NoUps(cs: seq<seq<byte>>) { forall i :: 0 <= i < |cs| ==> DotsAtEnd(cs[i]) != 2 }

  /** No component but "." ends in a dot. */
  predicate Dotless(cs: seq<seq<byte>>) { forall i :: 0 <= i < |cs| ==> cs[i] == HERE || DotsAtEnd(cs[i]) == 0 }

  function Total(names: seq<seq<byte>>): nat { if |names| == 0 then 0 else |names[0]| + Total(names[1..]) }

  lemma {:induction false} TotalJoin(a: seq<seq<byte>>, b: seq<seq<byte>>)
    ensures Total(a + b) == Total(a) + Total(b)
    decreases |a|
  {
    if |a| == 0 {
      assert a + b == b;
    } else {
      assert (a + b)[1..] == a[1..] + b;
      TotalJoin(a[1..], b);
    }
  }

  lemma OneTotal(c: seq<byte>)
    ensures Total([c]) == |c|
  {
    var none: seq<seq<byte>> := [c][1..];
    assert |none| == 0;
  }

  /** Characters of the components other than ".", and dots lost at their ends. */
  function Chars(cs: seq<seq<byte>>): nat {
    if |cs| == 0 then 0 else (if cs[0] == HERE then 0 else |cs[0]|) + Chars(cs[1..])
  }

  function Lost(cs: seq<seq<byte>>): nat {
    if |cs| == 0 then 0 else (if cs[0] == HERE then 0 else DotsAtEnd(cs[0])) + Lost(cs[1..])
  }

  lemma WrittenTotal(st: Stand, q: seq<byte>)
    requires StandOk(st)
    ensures Total(Written(st, q).names) == Total(st.names) + |q|
  {
    if |q| > 0 {
      if st.m.Name? {
        var k := |st.names| - 1;
        var init, last := st.names[..k], st.names[k];
        assert init + [last] == st.names;
        TotalJoin(init, [last]);
        TotalJoin(init, [last + q]);
        OneTotal(last);
        OneTotal(last + q);
      } else {
        TotalJoin(st.names, [q]);
        OneTotal(q);
      }
    }
  }

  /** Without "..", every character is kept but the lost dots. */
  lemma {:induction false} KeepTotal(s: seq<byte>, st: Stand)
    requires StandOk(st) && !st.m.Up? && NoUps(Components(s))
    ensures Total(Keep(s, st).names) + Lost(Components(s)) == Total(st.names) + Chars(Components(s))
    decreases |s|
  {
    if |s| > 0 {
      if s[0] == SLASH {
        KeepTotal(s[1..], AfterSlash(st));
      } else {
        var n, cs := SlashAt(s), Components(s);
        assert cs[0] == s[..n] && cs[1..] == Components(s[n..]);
        PastKeeps(s, n);
        AfterNameOk(st, s[..n]);
        NameTotal(st, s[..n]);
        KeepTotal(Behind(s, n), AfterName(st, s[..n]));
      }
    }
  }

  lemma NameTotal(st: Stand, c: seq<byte>)
    requires StandOk(st) && !st.m.Up? && |c| > 0 && DotsAtEnd(c) != 2
    ensures var v := AfterName(st, c); !v.m.Up? && Total(v.names) == Total(st.names) + |c| - DotsAtEnd(c)
    ensures c == HERE ==> DotsAtEnd(c) == 1
  {
    WrittenTotal(st, c[..|c| - DotsAtEnd(c)]);
  }

  lemma {:induction false} ReduceTotal(cs: seq<seq<byte>>, stack: seq<seq<byte>>)
    requires NoUps(cs)
    ensures Total(Reduce(cs, stack)) == Total(stack) + Chars(cs)
    decreases |cs|
  {
    if |cs| > 0 {
      assert DotsAtEnd(UP) == 2 && cs[0] != UP;
      if cs[0] == HERE {
        ReduceTotal(cs[1..], stack);
      } else {
        ReduceTotal(cs[1..], stack + [cs[0]]);
        TotalJoin(stack, [cs[0]]);
        OneTotal(cs[0]);
      }
    }
  }

  lemma {:induction false} LostMeans(cs: seq<seq<byte>>)
    ensures Lost(cs) == 0 <==> Dotless(cs)
    decreases |cs|
  {
    if |cs| > 0 {
      LostMeans(cs[1..]);
      assert forall i :: 1 <= i < |cs| ==> cs[i] == cs[1..][i - 1];
    }
  }

  lemma {:induction false} DotlessClean(s: seq<byte>)
    requires Dotless(Components(s)) && NoUps(Components(s))
    ensures Clean(s, false)
    decreases |s|
  {
    if |s| > 0 {
      if s[0] == SLASH {
        DotlessClean(s[1..]);
      } else {
        var n, cs := SlashAt(s), Components(s);
        assert cs[0] == s[..n] && cs[1..] == Components(s[n..]);
        PastKeeps(s, n);
        assert DotsAtEnd(UP) == 2 && s[..n] != UP;
        DotlessClean(if s[..n] == HERE then Past(s, n) else s[n..]);
      }
    }
  }

  /** A path in which no component ends in ".." comes out right if, and only if, no component but "." ends
      in a dot. */
  lemma WithoutUpsIff(path: seq<byte>, cap: nat)
    requires Absolute(path) && |path| < cap && NoUps(Components(path))
    ensures Right(path, cap) <==> Dotless(Components(path))
  {
    var cs, kept := Components(path), Kept(path);
    assert cs == Components(path[1..]);
    LostMeans(cs);
    if Right(path, cap) {
      RightIff(path, cap);
      KeepTotal(path[1..], Stand([], Open));
      ReduceTotal(cs, []);
      assert kept == NAMELESS ==> Total(kept) == 0;
    }
    if Dotless(cs) {
      DotlessClean(path[1..]);
      NormalReduces(path, cap);
    }
  }
}
