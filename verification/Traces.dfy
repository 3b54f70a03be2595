/** Histories that only grow at their end. */
module Traces {

  datatype Trace<T> = Start | Then(before: Trace<T>, last: T)

  /** `t` is how far `whole` had got at some earlier point, or all of it. */
  predicate Reaches<T(==)>(t: Trace<T>, whole: Trace<T>) {
    t == whole || (whole.Then? && Reaches(t, whole.before))
  }

  /** The trace after the elements of `s` happened, in order. */
  function Append<T>(t: Trace<T>, s: seq<T>): Trace<T>
    decreases |s|
  {
    if |s| == 0 then t else Append(Then(t, s[0]), s[1..])
  }

  lemma AppendCons<T>(t: Trace<T>, x: T, s: seq<T>)
    ensures Append(t, [x] + s) == Append(Then(t, x), s)
  {
    assert ([x] + s)[1..] == s;
  }

  function Length<T>(t: Trace<T>): nat { if t.Start? then 0 else Length(t.before) + 1 }

  lemma {:induction false} AppendLength<T>(t: Trace<T>, s: seq<T>)
    ensures Length(Append(t, s)) == Length(t) + |s|
    decreases |s|
  {
    if |s| > 0 {
      AppendLength(Then(t, s[0]), s[1..]);
    }
  }

  lemma {:induction false} AppendOne<T>(t: Trace<T>, s: seq<T>, x: T)
    ensures Append(t, s + [x]) == Then(Append(t, s), x)
    decreases |s|
  {
    if |s| > 0 {
      AppendOne(Then(t, s[0]), s[1..], x);
      assert (s + [x])[1..] == s[1..] + [x];
    }
  }

  lemma {:induction false} ReachesAgain<T>(a: Trace<T>, b: Trace<T>, c: Trace<T>)
    requires Reaches(a, b) && Reaches(b, c)
    ensures Reaches(a, c)
  {
    if b != c {
      ReachesAgain(a, b, c.before);
    }
  }
}
