/** The client's tables: tags with a receive buffer each, fids, and what a received frame does to them. */
module Client {
  import opened Bytes

  const NOTAG: nat := 0xFFFF
  const RERROR := 107

  datatype Fault = NoFault | IoError | AccessDenied | NotPermitted | NoEntry | TooLarge

  /** One ninep_tag_entry with the received bytes in its own buffer. */
  datatype Slot = Slot(inUse: bool, complete: bool, fault: Fault, tag: nat, rx: seq<byte>)

  datatype ClientFid = ClientFid(inUse: bool, fid: nat)

  datatype Client = Client(slots: seq<Slot>, nextTag: nat, fids: seq<ClientFid>, nextFid: nat,
                           bufSize: nat, maxMessage: nat, msize: nat)

  // ---------------------------------------------------------------- tags

  function FreeAt(slots: seq<Slot>): (i: nat)
    ensures i <= |slots| && (i < |slots| ==> !slots[i].inUse) && forall k :: 0 <= k < i ==> slots[k].inUse
  {
    if |slots| == 0 || !slots[0].inUse then 0
    else
      var r := FreeAt(slots[1..]);
      assert forall k :: 1 <= k < r + 1 ==> slots[k] == slots[1..][k - 1];
      r + 1
  }

  predicate Live(s: Slot, tag: nat) { s.inUse && s.tag == tag }

  function FindTag(slots: seq<Slot>, tag: nat): (i: nat)
    ensures i <= |slots| && (i < |slots| ==> Live(slots[i], tag)) && forall k :: 0 <= k < i ==> !Live(slots[k], tag)
  {
    if |slots| == 0 || Live(slots[0], tag) then 0
    else
      var r := FindTag(slots[1..], tag);
      assert forall k :: 1 <= k < r + 1 ==> slots[k] == slots[1..][k - 1];
      r + 1
  }

  function Taken(s: Slot, tag: nat): Slot { s.(inUse := true, complete := false, fault := NoFault, tag := tag) }

  function AllocTag(c: Client): Client {
    var i := FreeAt(c.slots);
    if i == |c.slots| then c else c.(slots := c.slots[i := Taken(c.slots[i], c.nextTag)],
                                     nextTag := (c.nextTag + 1) % MOD16)
  }

  function FreeTag(slots: seq<Slot>, tag: nat): (r: seq<Slot>)
    ensures |r| == |slots|
  {
    var i := FindTag(slots, tag);
    if i == |slots| then slots else slots[i := slots[i].(inUse := false)]
  }

  // ---------------------------------------------------------------- fids

  function FreeFidAt(fids: seq<ClientFid>): (i: nat)
    ensures i <= |fids| && (i < |fids| ==> !fids[i].inUse) && forall k :: 0 <= k < i ==> fids[k].inUse
  {
    if |fids| == 0 || !fids[0].inUse then 0
    else
      var r := FreeFidAt(fids[1..]);
      assert forall k :: 1 <= k < r + 1 ==> fids[k] == fids[1..][k - 1];
      r + 1
  }

  function FindFidAt(fids: seq<ClientFid>, fid: nat): (i: nat)
    ensures i <= |fids| && (i < |fids| ==> fids[i] == ClientFid(true, fid))
    ensures forall k :: 0 <= k < i ==> fids[k] != ClientFid(true, fid)
  {
    if |fids| == 0 || fids[0] == ClientFid(true, fid) then 0
    else
      var r := FindFidAt(fids[1..], fid);
      assert forall k :: 1 <= k < r + 1 ==> fids[k] == fids[1..][k - 1];
      r + 1
  }

  function AllocFid(c: Client): Client {
    var i := FreeFidAt(c.fids);
    if i == |c.fids| then c
    else c.(fids := c.fids[i := ClientFid(true, c.nextFid)], nextFid := (c.nextFid + 1) % MOD32)
  }

  function FreeFid(c: Client, fid: nat): Client {
    var i := FindFidAt(c.fids, fid);
    if i == |c.fids| then c else c.(fids := c.fids[i := c.fids[i].(inUse := false)])
  }

  // ---------------------------------------------------------------- a received frame

  /** memcmp against a text. */
  predicate Begins(b: seq<byte>, text: string)
    decreases |text|
  {
    |text| == 0 || (|b| > 0 && b[0] as int == text[0] as int && Begins(b[1..], text[1..]))
  }

  function FaultOf(frame: seq<byte>): Fault
    requires |frame| >= 7
  {
    if frame[4] != RERROR then NoFault
    else if |frame| < 9 || |frame| < 9 + U16(frame, 7) then IoError
    else
      var ename := frame[9..9 + U16(frame, 7)];
      if Begins(ename, "permission denied") then AccessDenied
      else if Begins(ename, "not authorized") then NotPermitted
      else if Begins(ename, "not found") then NoEntry
      else if Begins(ename, "file not found") then NoEntry
      else IoError
  }

  /** What client_recv_callback makes of the slots. */
  function Delivered(slots: seq<Slot>, bufSize: nat, frame: seq<byte>): (r: seq<Slot>)
    ensures |r| == |slots|
  {
    if !HeaderOk(frame) then slots
    else
      var i := FindTag(slots, U16(frame, 5));
      if i == |slots| then slots
      else if |frame| <= bufSize then slots[i := slots[i].(rx := frame, fault := FaultOf(frame), complete := true)]
      else slots[i := slots[i].(fault := TooLarge, complete := true)]
  }

  // ---------------------------------------------------------------- sizes

  function Min(a: nat, b: nat): nat { if a < b then a else b }

  /** The answer to Tversion must be complete and start with "9P2000". */
  predicate VersionOk(rx: seq<byte>) {
    && |rx| >= 13 && |rx| >= 13 + U16(rx, 11) && U16(rx, 11) >= 6 && Begins(rx[13..], "9P2000")
  }

  function AgreedMsize(c: Client, smsize: nat): nat { Min(Min(smsize, c.maxMessage), c.bufSize) }

  function HeadRoom(size: nat, head: nat): nat { if size > head then size - head else 0 }

  /** How much a Tread may ask for (head 11) or a Twrite may carry (head 23). */
  function PayloadCap(c: Client, head: nat): nat {
    if c.msize > head then Min(HeadRoom(c.bufSize, head), c.msize - head) else HeadRoom(c.bufSize, head)
  }

  // ---------------------------------------------------------------- the tables in place

  /** A tag entry without its buffer: that is region i of the pool. */
  datatype TagEntry = TagEntry(inUse: bool, complete: bool, fault: Fault, tag: nat, rxLen: nat)

  lemma Regions(i: nat, j: nat, size: nat, n: nat)
    requires i < n && j < n && i != j
    ensures 0 <= i * size && (i + 1) * size == i * size + size <= n * size
    ensures i < j ==> i * size + size <= j * size
    ensures j < i ==> j * size + size <= i * size
  {
    Scale(i + 1, n, size);
    if i < j { Scale(i + 1, j, size); } else { Scale(j + 1, i, size); }
  }

  lemma {:induction false} Scale(a: nat, b: nat, size: nat)
    requires a <= b
    ensures a * size <= b * size
  {
    assert (b - a) * size >= 0;
  }

  /** The slots that tag entries and a pool of |es| regions of `size` bytes make up. */
  function SlotsOf(es: seq<TagEntry>, pool: seq<byte>, size: nat): (v: seq<Slot>)
    requires |pool| == |es| * size && forall i :: 0 <= i < |es| ==> es[i].rxLen <= size
    ensures |v| == |es|
    ensures forall i :: 0 <= i < |es| ==> v[i] == SlotOf(es, pool, size, i)
  {
    seq(|es|, i requires 0 <= i < |es| => SlotOf(es, pool, size, i))
  }

  function SlotOf(es: seq<TagEntry>, pool: seq<byte>, size: nat, i: nat): Slot
    requires |pool| == |es| * size && i < |es| && es[i].rxLen <= size
  {
    Scale(i + 1, |es|, size);
    var e := es[i];
    Slot(e.inUse, e.complete, e.fault, e.tag, pool[i * size..i * size + e.rxLen])
  }

  /** Bytes before or behind those written stay as they were. */
  lemma Elsewhere(was: seq<byte>, base: nat, frame: seq<byte>, k: nat, n: nat)
    requires base + |frame| <= |was| && k + n <= |was| && (k + n <= base || base + |frame| <= k)
    ensures (was[..base] + frame + was[base + |frame|..])[k..k + n] == was[k..k + n]
  {
    var now := was[..base] + frame + was[base + |frame|..];
    assert forall j :: k <= j < k + n ==> now[j] == was[j];
  }

  /** Overwriting the start of region i changes slot i alone. */
  lemma FilledView(es: seq<TagEntry>, was: seq<byte>, size: nat, i: nat, frame: seq<byte>)
    requires |was| == |es| * size && (forall j :: 0 <= j < |es| ==> es[j].rxLen <= size)
    requires i < |es| && |frame| <= size && i * size + size <= |was|
    ensures var v, now := SlotsOf(es, was, size), was[..i * size] + frame + was[i * size + |frame|..];
            SlotsOf(es[i := es[i].(rxLen := |frame|)], now, size) == v[i := v[i].(rx := frame)]
  {
    var base := i * size;
    var now := was[..base] + frame + was[base + |frame|..];
    assert now[base..base + |frame|] == frame;
    var fs := es[i := es[i].(rxLen := |frame|)];
    forall j | 0 <= j < |es| && j != i ensures SlotOf(fs, now, size, j) == SlotOf(es, was, size, j) {
      Regions(j, i, size, |es|);
      Elsewhere(was, base, frame, j * size, es[j].rxLen);
    }
  }

  class Tags {
    const bufSize: nat
    const pool: array<byte>
    var entries: seq<TagEntry>
    var nextTag: nat

    ghost predicate Valid()
      reads this
    {
      pool.Length == |entries| * bufSize && forall i :: 0 <= i < |entries| ==> entries[i].rxLen <= bufSize
    }

    ghost function View(): (v: seq<Slot>)
      reads this, pool
      requires Valid()
      ensures |v| == |entries|
    {
      SlotsOf(entries, pool[..], bufSize)
    }

    constructor (slots: nat, bufSize: nat)
      ensures Valid() && |entries| == slots && this.bufSize == bufSize && nextTag == 0 && fresh(pool)
      ensures forall i :: 0 <= i < slots ==> !entries[i].inUse
    {
      this.bufSize := bufSize;
      nextTag := 0;
      entries := seq(slots, _ => TagEntry(false, false, NoFault, 0, 0));
      pool := new byte[slots * bufSize];
    }

    /** find_tag_locked; the number of slots when no live slot has the tag. */
    method Find(tag: nat) returns (i: nat)
      requires Valid()
      ensures i == FindTag(View(), tag)
    {
      i := 0;
      ghost var v := View();
      while i < |entries| && !(entries[i].inUse && entries[i].tag == tag)
        invariant i <= |entries| && forall k :: 0 <= k < i ==> !Live(v[k], tag)
      {
        assert !Live(v[i], tag);
        i := i + 1;
      }
      assert i < |entries| ==> Live(v[i], tag);
    }

    /** alloc_tag_locked; i is the number of slots when all are taken. */
    method Alloc() returns (i: nat, tag: nat)
      requires Valid()
      modifies this
      ensures Valid() && |entries| == old(|entries|) && i == FreeAt(old(View())) && tag == old(nextTag)
      ensures i == |entries| ==> View() == old(View()) && nextTag == old(nextTag)
      ensures i < |entries| ==> nextTag == (tag + 1) % MOD16 && View() == old(View())[i := Taken(old(View())[i], tag)]
    {
      tag := nextTag;
      i := 0;
      ghost var v := View();
      while i < |entries| && entries[i].inUse
        invariant i <= |entries| && forall k :: 0 <= k < i ==> v[k].inUse
      {
        assert v[i].inUse;
        i := i + 1;
      }
      if i < |entries| {
        assert !v[i].inUse;
        entries := entries[i := TagEntry(true, false, NoFault, tag, entries[i].rxLen)];
        nextTag := (nextTag + 1) % MOD16;
        assert View() == v[i := Taken(v[i], tag)];
      }
    }

    /** free_tag_locked. */
    method Free(tag: nat)
      requires Valid()
      modifies this
      ensures Valid() && View() == FreeTag(old(View()), tag) && nextTag == old(nextTag)
    {
      ghost var v := View();
      var i := Find(tag);
      if i < |entries| {
        entries := entries[i := entries[i].(inUse := false)];
        assert View() == v[i := v[i].(inUse := false)];
      }
    }

    /** memcpy into the receive buffer of slot i; every other slot keeps its bytes. */
    method Fill(i: nat, frame: seq<byte>)
      requires Valid() && i < |entries| && |frame| <= bufSize
      modifies this, pool
      ensures Valid() && |entries| == old(|entries|) && nextTag == old(nextTag)
      ensures View() == old(View())[i := old(View())[i].(rx := frame)]
    {
      Scale(i + 1, |entries|, bufSize);
      ghost var was, base := pool[..], i * bufSize;
      var k := 0;
      while k < |frame|
        modifies pool
        invariant k <= |frame| && pool[..] == was[..base] + frame[..k] + was[base + k..]
      {
        pool[i * bufSize + k] := frame[k];
        k := k + 1;
      }
      assert frame[..k] == frame;
      FilledView(entries, was, bufSize, i, frame);
      entries := entries[i := entries[i].(rxLen := |frame|)];
    }

    method Mark(i: nat, fault: Fault)
      requires Valid() && i < |entries|
      modifies this
      ensures Valid() && |entries| == old(|entries|) && nextTag == old(nextTag)
      ensures View() == old(View())[i := old(View())[i].(fault := fault, complete := true)]
    {
      ghost var v := View();
      entries := entries[i := entries[i].(fault := fault, complete := true)];
      assert View() == v[i := v[i].(fault := fault, complete := true)];
    }

    /** client_recv_callback, under the client's lock. */
    method Recv(frame: seq<byte>)
      requires Valid()
      modifies this, pool
      ensures Valid() && nextTag == old(nextTag) && View() == Delivered(old(View()), bufSize, frame)
    {
      if HeaderOk(frame) {
        var i := Find(U16(frame, 5));
        if i < |entries| {
          if |frame| <= bufSize {
            Fill(i, frame);
            Mark(i, FaultOf(frame));
          } else {
            Mark(i, TooLarge);
          }
        }
      }
    }
  }

  /** The client's fid table. */
  class Fids {
    var entries: seq<ClientFid>
    var nextFid: nat

    constructor (n: nat)
      ensures entries == seq(n, _ => ClientFid(false, 0)) && nextFid == 0
    {
      entries := seq(n, _ => ClientFid(false, 0));
      nextFid := 0;
    }

    /** ninep_client_alloc_fid, and the loop that auth, attach and walk repeat. */
    method Alloc() returns (ok: bool, fid: nat)
      modifies this
      ensures ok <==> FreeFidAt(old(entries)) < old(|entries|)
      ensures ok ==> fid == old(nextFid) && nextFid == (fid + 1) % MOD32
      ensures ok ==> entries == old(entries)[FreeFidAt(old(entries)) := ClientFid(true, fid)]
      ensures !ok ==> entries == old(entries) && nextFid == old(nextFid)
    {
      fid := nextFid;
      var i := 0;
      while i < |entries| && entries[i].inUse
        invariant i <= |entries| && forall k :: 0 <= k < i ==> entries[k].inUse
      {
        i := i + 1;
      }
      ok := i < |entries|;
      if ok {
        entries := entries[i := ClientFid(true, fid)];
        nextFid := (nextFid + 1) % MOD32;
      }
    }

    /** ninep_client_free_fid. */
    method Free(fid: nat)
      modifies this`entries
      ensures var i := FindFidAt(old(entries), fid);
              entries == if i < old(|entries|) then old(entries)[i := ClientFid(false, fid)] else old(entries)
    {
      var i := 0;
      while i < |entries| && !(entries[i].inUse && entries[i].fid == fid)
        invariant i <= |entries| && forall k :: 0 <= k < i ==> entries[k] != ClientFid(true, fid)
      {
        i := i + 1;
      }
      if i < |entries| {
        entries := entries[i := entries[i].(inUse := false)];
      }
    }
  }
}
