/** Directory reads of the RAM filesystem: whole stat records, resumed at the offset they reached. */
module Ramfs {
  import opened Bytes
  import opened Session
  import opened Wire

  const DMDIR: nat := 0x8000_0000

  datatype Child = Child(name: seq<byte>, qid: Qid, mode: nat, isDir: bool, length: nat)

  function ModeBits(c: Child): nat { if c.isDir && c.mode < DMDIR then c.mode + DMDIR else c.mode }

  function FixedPart(c: Child): (b: seq<byte>)
    ensures |b| == 41
  {
    LE16(47 + |c.name|) + LE16(0) + LE32(0) + QidBytes(c.qid) + LE32(ModeBits(c)) + LE32(0) + LE32(0) + LE64(c.length)
  }

  /** size[2] type[2] dev[4] qid[13] mode[4] atime[4] mtime[4] length[8] name[s] and three empty strings. */
  function Record(c: Child): (b: seq<byte>)
    ensures |b| == 49 + |c.name|
  {
    FixedPart(c) + Str(c.name) + LE16(0) + LE16(0) + LE16(0)
  }

  function Records(cs: seq<Child>): (r: seq<seq<byte>>)
    ensures |r| == |cs|
  {
    if |cs| == 0 then [] else [Record(cs[0])] + Records(cs[1..])
  }

  lemma {:induction false} RecordAt(cs: seq<Child>, i: nat)
    requires i < |cs|
    ensures Records(cs)[i] == Record(cs[i])
  {
    if i > 0 {
      RecordAt(cs[1..], i - 1);
    }
  }

  predicate Listed(cs: seq<Child>, i: int) { 0 <= i < |cs| }

  /** rs are the records of cs; a child's record is looked into only where the child is named Listed. */
  ghost predicate Rendered(rs: seq<seq<byte>>, cs: seq<Child>) {
    |rs| == |cs| && forall i {:trigger Listed(cs, i)} :: Listed(cs, i) ==> rs[i] == Record(cs[i])
  }

  lemma RecordSize(rs: seq<seq<byte>>, cs: seq<Child>, i: nat)
    requires Rendered(rs, cs) && i < |cs|
    ensures |rs[i]| == 49 + |cs[i].name|
  {
    assert Listed(cs, i);
  }

  lemma RecordsRendered(cs: seq<Child>)
    ensures Rendered(Records(cs), cs)
  {
    forall i | Listed(cs, i) ensures Records(cs)[i] == Record(cs[i]) {
      RecordAt(cs, i);
    }
  }

  /** What the loop emits from record i on, at stream position cur with `used` bytes in the buffer. */
  function Emit(rs: seq<seq<byte>>, i: nat, cur: nat, offset: nat, count: nat, used: nat): seq<byte>
    requires i <= |rs|
    decreases |rs| - i
  {
    if i == |rs| then []
    else if cur < offset then Emit(rs, i + 1, cur + |rs[i]|, offset, count, used)
    else if used + |rs[i]| > count then []
    else rs[i] + Emit(rs, i + 1, cur + |rs[i]|, offset, count, used + |rs[i]|)
  }

  function DirRead(rs: seq<seq<byte>>, offset: nat, count: nat): seq<byte> { Emit(rs, 0, 0, offset, count, 0) }

  /** `done` is on the page, and the rest of it is still to come. */
  predicate Paged(page: seq<byte>, done: seq<byte>, rs: seq<seq<byte>>, i: nat, cur: nat, offset: nat, count: nat) {
    i <= |rs| && |done| <= count && page == done + Emit(rs, i, cur, offset, count, |done|)
  }

  lemma PageStarts(rs: seq<seq<byte>>, offset: nat, count: nat)
    ensures Paged(DirRead(rs, offset, count), [], rs, 0, 0, offset, count)
  {
  }

  /** The loop's next step: record i goes onto the page if the offset is reached, and is passed over if not. */
  lemma PageGoesOn(page: seq<byte>, done: seq<byte>, rs: seq<seq<byte>>, i: nat, cur: nat, offset: nat, count: nat,
                   done': seq<byte>, cur': nat)
    requires Paged(page, done, rs, i, cur, offset, count) && i < |rs| && cur' == cur + |rs[i]|
    requires cur >= offset ==> |done| + |rs[i]| <= count
    requires done' == if cur >= offset then done + rs[i] else done
    ensures Paged(page, done', rs, i + 1, cur', offset, count)
  {
    if cur >= offset {
      var rest := Emit(rs, i + 1, cur', offset, count, |done'|);
      assert done + (rs[i] + rest) == done' + rest;
    }
  }

  lemma PageEnds(page: seq<byte>, done: seq<byte>, rs: seq<seq<byte>>, i: nat, cur: nat, offset: nat, count: nat)
    requires Paged(page, done, rs, i, cur, offset, count)
    requires i == |rs| || (cur >= offset && |done| + |rs[i]| > count)
    ensures page == done
  {
  }

  class Node {
    const data: Child
    var next: Node?
    var parent: Directory?

    constructor (data: Child)
      ensures this.data == data && next == null && parent == null
    {
      this.data := data;
      next, parent := null, null;
    }
  }

  /** A directory node: its children are linked through their `next` fields. */
  class Directory {
    var children: Node?
    ghost var list: seq<Node>

    /** The chain that starts at `children` runs through `list` and ends there. */
    ghost predicate Valid()
      reads this, list
    {
      && children == NodeAt(0)
      && forall i :: 0 <= i < |list| ==> list[i].next == NodeAt(i + 1) && list[i].parent == this
    }

    ghost function NodeAt(i: nat): Node?
      reads this
    {
      if i < |list| then list[i] else null
    }

    ghost function Children(): (cs: seq<Child>)
      reads this
      ensures |cs| == |list| && forall i :: 0 <= i < |list| ==> cs[i] == list[i].data
    {
      var l := list;
      seq(|l|, i requires 0 <= i < |l| => l[i].data)
    }

    constructor ()
      ensures Valid() && list == [] && Children() == []
    {
      children, list := null, [];
    }

    /** The first n children lead round to each other, so the chain never ends. */
    ghost predicate Ring(n: nat)
      reads this, list
    {
      0 < n <= |list| && children in list[..n] && forall i :: 0 <= i < n ==> list[i].next in list[..n]
    }

    /** add_child links the newest child in front of the chain. A child that is on the chain already closes
        it into a ring. */
    method AddChild(c: Node)
      requires Valid()
      modifies this, c
      ensures children == c && c.next == old(children) && c.parent == this
      ensures c !in old(list) ==> Valid() && list == [c] + old(list) && Children() == [c.data] + old(Children())
      ensures c in old(list) ==> list == old(list) && exists n :: Ring(n)
    {
      ghost var was := list;
      c.parent := this;
      c.next := children;
      children := c;
      if c !in was {
        list := [c] + list;
      } else {
        ghost var k := FirstAt(was, c);
        assert forall i :: 0 <= i < k ==> list[i].next == list[..k + 1][i + 1];
        assert list[k].next == list[..k + 1][0] && list[..k + 1][k] == c;
        assert Ring(k + 1);
      }
    }

    static lemma {:induction false} FirstAt(l: seq<Node>, c: Node) returns (k: nat)
      requires c in l
      ensures k < |l| && l[k] == c && c !in l[..k]
    {
      if l[0] == c {
        k := 0;
      } else {
        k := FirstAt(l[1..], c);
        k := k + 1;
        assert l[..k] == [l[0]] + l[1..][..k - 1];
      }
    }

    method PutRecord(buf: array<byte>, off: nat, c: Child) returns (next: nat)
      requires off + 49 + |c.name| <= buf.Length
      modifies buf
      ensures next == off + 49 + |c.name| && buf[..] == Patch(old(buf[..]), off, Record(c))
    {
      ghost var s := buf[..];
      next := PutFixed(buf, off, c);
      next := PutString(buf, next, c.name);
      PatchTwice(s, off, FixedPart(c), Str(c.name));
      ghost var b := FixedPart(c) + Str(c.name);
      next := PutU16(buf, next, 0);
      PatchTwice(s, off, b, LE16(0));
      next := PutU16(buf, next, 0);
      PatchTwice(s, off, b + LE16(0), LE16(0));
      next := PutU16(buf, next, 0);
      PatchTwice(s, off, b + LE16(0) + LE16(0), LE16(0));
    }

    method PutFixed(buf: array<byte>, off: nat, c: Child) returns (next: nat)
      requires off + 41 <= buf.Length
      modifies buf
      ensures next == off + 41 && buf[..] == Patch(old(buf[..]), off, FixedPart(c))
    {
      ghost var s := buf[..];
      next := PutU16(buf, off, 47 + |c.name|);
      ghost var b := LE16(47 + |c.name|);
      next := PutU16(buf, next, 0);
      PatchTwice(s, off, b, LE16(0));
      b := b + LE16(0);
      next := PutU32(buf, next, 0);
      PatchTwice(s, off, b, LE32(0));
      b := b + LE32(0);
      next := PutQid(buf, next, c.qid);
      PatchTwice(s, off, b, QidBytes(c.qid));
      b := b + QidBytes(c.qid);
      next := PutU32(buf, next, ModeBits(c));
      PatchTwice(s, off, b, LE32(ModeBits(c)));
      b := b + LE32(ModeBits(c));
      next := PutU32(buf, next, 0);
      PatchTwice(s, off, b, LE32(0));
      b := b + LE32(0);
      next := PutU32(buf, next, 0);
      PatchTwice(s, off, b, LE32(0));
      b := b + LE32(0);
      next := PutU64(buf, next, c.length);
      PatchTwice(s, off, b, LE64(c.length));
    }

    method PutChild(buf: array<byte>, off: nat, c: Child, ghost r: seq<byte>) returns (next: nat)
      requires r == Record(c) && off + |r| <= buf.Length
      modifies buf
      ensures next == off + |r| && buf[..next] == old(buf[..off]) + r
    {
      ghost var s := buf[..];
      next := PutRecord(buf, off, c);
      assert buf[..next] == s[..off] + r;
    }

    /** One turn of the loop: the record of child c, if the offset is reached and it fits. */
    method PageOne(buf: array<byte>, n: nat, cur: nat, offset: nat, count: nat, c: Child,
                   ghost page: seq<byte>, ghost done: seq<byte>, ghost rs: seq<seq<byte>>, ghost cs: seq<Child>,
                   ghost i: nat)
      returns (ok: bool, n': nat, cur': nat, ghost done': seq<byte>)
      requires n <= count <= buf.Length && Rendered(rs, cs) && i < |cs| && c == cs[i]
      requires buf[..n] == done && Paged(page, done, rs, i, cur, offset, count)
      modifies buf
      ensures n' <= count && buf[..n'] == done'
      ensures ok ==> Paged(page, done', rs, i + 1, cur', offset, count)
      ensures !ok ==> page == done'
    {
      assert Listed(cs, i);
      var size := 49 + |c.name|;
      ok, n', cur', done' := true, n, cur + size, done;
      if cur >= offset {
        if n + size > count {
          PageEnds(page, done, rs, i, cur, offset, count);
          ok := false;
          return;
        }
        n' := PutChild(buf, n, c, rs[i]);
        done' := done + rs[i];
      }
      PageGoesOn(page, done, rs, i, cur, offset, count, done', cur');
    }

    method Page(buf: array<byte>, offset: nat, count: nat, ghost rs: seq<seq<byte>>) returns (n: nat)
      requires Valid() && count <= buf.Length && Rendered(rs, Children())
      modifies buf
      ensures n <= count && buf[..n] == DirRead(rs, offset, count)
    {
      ghost var page, cs, done, i := DirRead(rs, offset, count), Children(), [], 0;
      var cur, child, ok := 0, children, true;
      n := 0;
      PageStarts(rs, offset, count);
      while child != null
        invariant i <= |list| && child == NodeAt(i) && n <= count && buf[..n] == done
        invariant Paged(page, done, rs, i, cur, offset, count)
        decreases |list| - i
      {
        ok, n, cur, done := PageOne(buf, n, cur, offset, count, child.data, page, done, rs, cs, i);
        if !ok {
          return;
        }
        child := child.next;
        i := i + 1;
      }
      PageEnds(page, done, rs, i, cur, offset, count);
    }

    /** The directory branch of ramfs_read. */
    method Read(buf: array<byte>, offset: nat, count: nat) returns (n: nat)
      requires Valid() && count <= buf.Length
      modifies buf
      ensures n <= count && buf[..n] == DirRead(Records(Children()), offset, count)
    {
      RecordsRendered(Children());
      n := Page(buf, offset, count, Records(Children()));
    }
  }

  // ---------------------------------------------------------------- paging

  /** Where the records from k on stop fitting a count. */
  function Fit(rs: seq<seq<byte>>, k: nat, count: nat): (m: nat)
    requires k <= |rs|
    ensures k <= m <= |rs|
    decreases |rs| - k
  {
    if k == |rs| || |rs[k]| > count then k else Fit(rs, k + 1, count - |rs[k]|)
  }

  lemma {:induction false} EmitFits(rs: seq<seq<byte>>, k: nat, cur: nat, offset: nat, count: nat, used: nat)
    requires k <= |rs| && cur >= offset && used <= count
    ensures Emit(rs, k, cur, offset, count, used) == Concat(rs[k..Fit(rs, k, count - used)])
    decreases |rs| - k
  {
    if k < |rs| && used + |rs[k]| <= count {
      var n, m := |rs[k]|, Fit(rs, k, count - used);
      EmitFits(rs, k + 1, cur + n, offset, count, used + n);
      assert rs[k..m][1..] == rs[k + 1..m];
    }
  }

  predicate NonEmpty(rs: seq<seq<byte>>) { forall i :: 0 <= i < |rs| ==> |rs[i]| > 0 }

  lemma {:induction false} EmitSkips(rs: seq<seq<byte>>, i: nat, k: nat, cur: nat, offset: nat, count: nat)
    requires i <= k <= |rs| && NonEmpty(rs) && offset == cur + |Concat(rs[i..k])|
    ensures Emit(rs, i, cur, offset, count, 0) == Emit(rs, k, offset, offset, count, 0)
    decreases k - i
  {
    if i < k {
      assert rs[i..k][1..] == rs[i + 1..k];
      EmitSkips(rs, i + 1, k, cur + |rs[i]|, offset, count);
    }
  }

  /** A read that resumes behind the first k records returns the next ones, whole and in order, as many
      as fit; it returns nothing exactly when there are none left or the next one does not fit. */
  lemma PageIsNextRecords(rs: seq<seq<byte>>, k: nat, count: nat)
    requires k <= |rs| && NonEmpty(rs)
    ensures var page := DirRead(rs, |Concat(rs[..k])|, count);
            && page == Concat(rs[k..Fit(rs, k, count)])
            && (page == [] <==> k == |rs| || |rs[k]| > count)
  {
    var offset, m := |Concat(rs[..k])|, Fit(rs, k, count);
    assert rs[0..k] == rs[..k];
    EmitSkips(rs, 0, k, 0, offset, count);
    EmitFits(rs, k, offset, offset, count, 0);
    if m > k {
      var next := rs[k..m];
      assert next[0] == rs[k] && |Concat(next)| >= |next[0]|;
    }
  }

  /** Successive reads, each at the previous offset plus the bytes it returned. */
  function Pages(rs: seq<seq<byte>>, offset: nat, counts: seq<nat>): seq<byte>
    decreases |counts|
  {
    if |counts| == 0 then []
    else
      var page := DirRead(rs, offset, counts[0]);
      page + Pages(rs, offset + |page|, counts[1..])
  }

  predicate Ample(rs: seq<seq<byte>>, count: nat) { forall i :: 0 <= i < |rs| ==> 0 < |rs[i]| <= count }

  predicate AllAmple(rs: seq<seq<byte>>, counts: seq<nat>) {
    forall i :: 0 <= i < |counts| ==> Ample(rs, counts[i])
  }

  /** One page from a record boundary ends at a later record boundary. */
  lemma PageReaches(rs: seq<seq<byte>>, k: nat, count: nat) returns (m: nat)
    requires k <= |rs| && Ample(rs, count)
    ensures k <= m <= |rs| && (k < |rs| ==> k < m)
    ensures Concat(rs[..k]) + DirRead(rs, |Concat(rs[..k])|, count) == Concat(rs[..m])
  {
    PageIsNextRecords(rs, k, count);
    m := Fit(rs, k, count);
    assert rs[k..m] == rs[..m][k..] && rs[..m][..k] == rs[..k];
    ConcatSplit(rs[..m], k);
  }

  lemma {:induction false} PagesFrom(rs: seq<seq<byte>>, k: nat, counts: seq<nat>) returns (m: nat)
    requires k <= |rs| && AllAmple(rs, counts)
    ensures k <= m <= |rs| && (m < |rs| ==> m >= k + |counts|)
    ensures Concat(rs[..k]) + Pages(rs, |Concat(rs[..k])|, counts) == Concat(rs[..m])
    decreases |counts|
  {
    var done := Concat(rs[..k]);
    m := k;
    if |counts| > 0 {
      var page := DirRead(rs, |done|, counts[0]);
      var k' := PageReaches(rs, k, counts[0]);
      m := PagesFrom(rs, k', counts[1..]);
      var rest := Pages(rs, |done| + |page|, counts[1..]);
      assert done + (page + rest) == done + page + rest;
    }
  }

  predicate Holds(cs: seq<Child>, counts: seq<nat>) {
    forall i, j :: 0 <= i < |counts| && 0 <= j < |cs| ==> 49 + |cs[j].name| <= counts[i]
  }

  /** Reading an unchanged directory from offset 0 with counts that hold any one record yields, once
      there are as many reads as children, every record exactly once, whole and in list order; fewer
      reads yield the whole records of a prefix of the children. */
  lemma PagedListing(cs: seq<Child>, counts: seq<nat>)
    requires Holds(cs, counts)
    ensures exists m :: 0 <= m <= |cs| && Pages(Records(cs), 0, counts) == Concat(Records(cs)[..m])
    ensures |counts| >= |cs| ==> Pages(Records(cs), 0, counts) == Concat(Records(cs))
  {
    var rs := Records(cs);
    RecordsRendered(cs);
    forall i, j | 0 <= i < |counts| && 0 <= j < |rs| ensures 0 < |rs[j]| <= counts[i] {
      RecordSize(rs, cs, j);
    }
    var m := PagesFrom(rs, 0, counts);
    assert rs[..0] == [] && Pages(rs, 0, counts) == Concat(rs[..m]);
    assert rs[..|rs|] == rs;
  }

  /** After a child is added, a listing shows it first and then what it showed before. */
  lemma NewestListedFirst(cs: seq<Child>, c: Child, counts: seq<nat>)
    requires Holds([c] + cs, counts) && |counts| > |cs|
    ensures Pages(Records([c] + cs), 0, counts) == Record(c) + Pages(Records(cs), 0, counts)
  {
    assert ([c] + cs)[1..] == cs;
    assert Holds(cs, counts) by {
      forall i, j | 0 <= i < |counts| && 0 <= j < |cs| ensures 49 + |cs[j].name| <= counts[i] {
        assert ([c] + cs)[j + 1] == cs[j];
      }
    }
    PagedListing([c] + cs, counts);
    PagedListing(cs, counts);
    assert Records([c] + cs)[1..] == Records(cs);
  }
}
