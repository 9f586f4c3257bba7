// Regular files: spfs_write and spfs_read over a chain of extents (sp.c).

module Files {
  import opened Entries
  import opened Disks
  import opened FreeLists
  import opened Words
  import opened Streams
  import opened Extents
  import opened Chains

  lemma ExtentKept(b: map<Sector, Block>, b': map<Sector, Block>, e: Ext, next: Sector, bs: nat)
    requires ExtentAt(b, e, next, bs)
    requires forall y :: e.start <= y < e.start + e.blocks ==> y in b && y in b' && b'[y] == b[y]
    ensures ExtentAt(b', e, next, bs) && DataOf(b', e) == DataOf(b, e) && InUse(b', e) == InUse(b, e)
  {
    SectorsSame2(b, b', e.start, e.blocks);
    SizedSame(b, b', e.start, e.blocks, bs);
    SecSame(b, b', e.start);
  }

  lemma {:induction false} RunInChain(c: seq<Ext>, k: nat, y: Sector)
    requires k < |c| && InRun(y, c[k].start, c[k].blocks)
    ensures y in ChainSecs(c)
  {
    if k > 0 {
      RunInChain(c[1..], k - 1, y);
    }
  }

  lemma {:induction false} RunsApart(c: seq<Ext>, j: nat, k: nat, y: Sector)
    requires ChainApart(c) && j < |c| && k < |c| && j != k && InRun(y, c[k].start, c[k].blocks)
    ensures !InRun(y, c[j].start, c[j].blocks)
  {
    if j == 0 {
      RunInChain(c[1..], k - 1, y);
    } else if k == 0 {
      if InRun(y, c[j].start, c[j].blocks) {
        RunInChain(c[1..], j - 1, y);
      }
    } else {
      RunsApart(c[1..], j - 1, k - 1, y);
    }
  }

  // Before a write: m extents linked, possibly one more waiting to be linked.
  function OldNext(c: seq<Ext>, m: nat, k: nat): Sector {
    if k + 1 == m then 0 else Next(c, k)
  }

  ghost predicate Pending(b: map<Sector, Block>, c: seq<Ext>, m: nat, bs: nat) {
    && 1 <= m <= |c| <= m + 1 && ChainApart(c)
    && forall k :: 0 <= k < |c| ==>
         ExtentAt(b, c[k], OldNext(c, m, k), bs) && c[k].blocks * bs <= TWO_32 && c[k].start < TWO_32
  }

  // The state of the loop of spfs_write in front of extent i.
  ghost predicate Underway(b0: map<Sector, Block>, b: map<Sector, Block>, c: seq<Ext>, m: nat, bs: nat, p: nat,
                           x: seq<Byte>, i: nat) {
    && i <= |c|
    && (forall k :: 0 <= k < i ==>
          ExtentAt(b, WrittenAt(b0, c, p, x, k), Next(c, k), bs)
          && DataOf(b, WrittenAt(b0, c, p, x, k)) == PouredAt(b0, c, p, x, k))
    && (forall k :: i <= k < |c| ==>
          ExtentAt(b, c[k], OldNext(c, m, k), bs) && DataOf(b, c[k]) == DataOf(b0, c[k]))
    && (forall y :: y in b0 && y !in ChainSecs(c) ==> y in b && b[y] == b0[y])
  }

  lemma StepUnderway(b0: map<Sector, Block>, b: map<Sector, Block>, b': map<Sector, Block>, c: seq<Ext>, m: nat,
                     bs: nat, p: nat, x: seq<Byte>, i: nat)
    requires Underway(b0, b, c, m, bs, p, x, i) && i < |c| && ChainApart(c)
    requires ExtentAt(b', WrittenAt(b0, c, p, x, i), Next(c, i), bs)
    requires DataOf(b', WrittenAt(b0, c, p, x, i)) == PouredAt(b0, c, p, x, i)
    requires b'.Keys == b.Keys
    requires forall y :: y in b && !(c[i].start <= y < c[i].start + c[i].blocks) ==> b'[y] == b[y]
    ensures Underway(b0, b', c, m, bs, p, x, i + 1)
  {
    hide ExtentAt, DataOf, PouredAt, Before, Written, ChainApart, ChainSecs, OldNext, Next, WrittenAt;
    DoneKept(b0, b, b', c, m, bs, p, x, i);
    TodoKept(b0, b, b', c, m, bs, p, x, i);
    KeptOutside(b0, b, b', c, i);
  }

  // The extents already written stay as they are.
  lemma DoneKept(b0: map<Sector, Block>, b: map<Sector, Block>, b': map<Sector, Block>, c: seq<Ext>, m: nat, bs: nat,
                 p: nat, x: seq<Byte>, i: nat)
    requires Underway(b0, b, c, m, bs, p, x, i) && i < |c| && ChainApart(c) && b'.Keys == b.Keys
    requires forall y :: y in b && !(c[i].start <= y < c[i].start + c[i].blocks) ==> b'[y] == b[y]
    ensures forall k :: 0 <= k < i ==>
      ExtentAt(b', WrittenAt(b0, c, p, x, k), Next(c, k), bs)
      && DataOf(b', WrittenAt(b0, c, p, x, k)) == PouredAt(b0, c, p, x, k)
  {
    hide ExtentAt, DataOf, PouredAt, Before, Written, ChainApart, ChainSecs, OldNext, Next, WrittenAt;
    forall k | 0 <= k < i
      ensures ExtentAt(b', WrittenAt(b0, c, p, x, k), Next(c, k), bs)
      ensures DataOf(b', WrittenAt(b0, c, p, x, k)) == PouredAt(b0, c, p, x, k)
    {
      WrittenWhere(b0, c, p, x, k);
      KeptBeside(b, b', c, i, k, WrittenAt(b0, c, p, x, k), Next(c, k), bs);
    }
  }

  // So do those still to come.
  lemma TodoKept(b0: map<Sector, Block>, b: map<Sector, Block>, b': map<Sector, Block>, c: seq<Ext>, m: nat, bs: nat,
                 p: nat, x: seq<Byte>, i: nat)
    requires Underway(b0, b, c, m, bs, p, x, i) && i < |c| && ChainApart(c) && b'.Keys == b.Keys
    requires forall y :: y in b && !(c[i].start <= y < c[i].start + c[i].blocks) ==> b'[y] == b[y]
    ensures forall k :: i < k < |c| ==> ExtentAt(b', c[k], OldNext(c, m, k), bs) && DataOf(b', c[k]) == DataOf(b0, c[k])
  {
    hide ExtentAt, DataOf, PouredAt, Before, Written, ChainApart, ChainSecs, OldNext, Next, WrittenAt;
    forall k | i < k < |c|
      ensures ExtentAt(b', c[k], OldNext(c, m, k), bs) && DataOf(b', c[k]) == DataOf(b0, c[k])
    {
      KeptBeside(b, b', c, i, k, c[k], OldNext(c, m, k), bs);
    }
  }

  lemma KeptOutside(b0: map<Sector, Block>, b: map<Sector, Block>, b': map<Sector, Block>, c: seq<Ext>, i: nat)
    requires i < |c| && b'.Keys == b.Keys
    requires forall y :: y in b0 && y !in ChainSecs(c) ==> y in b && b[y] == b0[y]
    requires forall y :: y in b && !(c[i].start <= y < c[i].start + c[i].blocks) ==> b'[y] == b[y]
    ensures forall y :: y in b0 && y !in ChainSecs(c) ==> y in b' && b'[y] == b0[y]
  {
    forall y | y in b0 && y !in ChainSecs(c) ensures y in b' && b'[y] == b0[y] {
      if InRun(y, c[i].start, c[i].blocks) { RunInChain(c, i, y); }
    }
  }

  lemma WrittenWhere(b: map<Sector, Block>, c: seq<Ext>, p: nat, x: seq<Byte>, k: nat)
    requires k < |c|
    ensures WrittenAt(b, c, p, x, k).start == c[k].start && WrittenAt(b, c, p, x, k).blocks == c[k].blocks
  {
  }

  lemma KeptBeside(b: map<Sector, Block>, b': map<Sector, Block>, c: seq<Ext>, i: nat, k: nat, e: Ext, next: Sector,
                   bs: nat)
    requires i < |c| && k < |c| && i != k && ChainApart(c) && e.start == c[k].start && e.blocks == c[k].blocks
    requires b'.Keys == b.Keys && forall y :: y in b && !(c[i].start <= y < c[i].start + c[i].blocks) ==> b'[y] == b[y]
    requires ExtentAt(b, e, next, bs)
    ensures ExtentAt(b', e, next, bs) && DataOf(b', e) == DataOf(b, e)
  {
    forall y | e.start <= y < e.start + e.blocks ensures y in b && y in b' && b'[y] == b[y] {
      RunsApart(c, i, k, y);
    }
    ExtentKept(b, b', e, next, bs);
  }

  lemma StartUnderway(b: map<Sector, Block>, c: seq<Ext>, m: nat, bs: nat, p: nat, x: seq<Byte>)
    requires Pending(b, c, m, bs)
    ensures Underway(b, b, c, m, bs, p, x, 0) && ChainApart(c)
    ensures forall k :: 0 <= k < |c| ==> c[k].start != 0 && c[k].start < TWO_32 && c[k].blocks * bs <= TWO_32
  {
  }

  // Writing one extent depends only on its own data.
  lemma WrittenSame(b0: map<Sector, Block>, b: map<Sector, Block>, c: seq<Ext>, p: nat, x: seq<Byte>, i: nat, q: nat,
                    y: seq<Byte>)
    requires i < |c| && DataOf(b, c[i]) == DataOf(b0, c[i]) && (q, y) == Before(b0, c, p, x, i)
    ensures Written(b, c[i], q, y) == WrittenAt(b0, c, p, x, i)
    ensures Pour(DataOf(b, c[i]), q, y).data == PouredAt(b0, c, p, x, i)
    ensures (Pour(DataOf(b, c[i]), q, y).pos, Pour(DataOf(b, c[i]), q, y).rest) == Before(b0, c, p, x, i + 1)
  {
  }

  // The whole input has found its place once the capacity so far covers it, and not before.
  lemma InputUsed(b: map<Sector, Block>, c: seq<Ext>, p: nat, x: seq<Byte>, i: nat)
    requires i <= |c| && |x| > 0
    ensures Before(b, c, p, x, i).1 == [] <==> p + |x| <= |Storage(b, c[..i])|
    ensures Before(b, c, p, x, i).1 == [] ==> Before(b, c, p, x, i).0 == 0
  {
    var d := Storage(b, c[..i]);
    BeforeIs(b, c, p, x, i);
    PourCases(d, p, x);
  }

  lemma StorageMono(b: map<Sector, Block>, c: seq<Ext>, i: nat, j: nat)
    requires i <= j <= |c|
    ensures |Storage(b, c[..i])| <= |Storage(b, c[..j])|
  {
    assert c[..j] == c[..i] + c[i..j];
    StorageAppend(b, c[..i], c[i..j]);
  }

  // The extents behind the end of the input are written with nothing.
  lemma {:induction false} RestUntouched(b: map<Sector, Block>, c: seq<Ext>, p: nat, x: seq<Byte>, i: nat, k: nat)
    requires i <= k < |c| && Before(b, c, p, x, i) == (0, [])
    ensures Before(b, c, p, x, k) == (0, []) && WrittenAt(b, c, p, x, k) == c[k]
    ensures PouredAt(b, c, p, x, k) == DataOf(b, c[k])
  {
    hide Pour, DataOf, Reach;
    var d := DataOf(b, c[k]);
    if i < k {
      RestUntouched(b, c, p, x, i, k - 1);
      PourNothing(DataOf(b, c[k - 1]));
    }
    PourNothing(d);
    NoReach2(c[k].length, 0, d);
    assert Ext(c[k].start, c[k].blocks, c[k].length) == c[k];
  }

  lemma FinishUnderway(b0: map<Sector, Block>, b: map<Sector, Block>, c: seq<Ext>, m: nat, bs: nat, p: nat,
                       x: seq<Byte>, i: nat)
    requires Underway(b0, b, c, m, bs, p, x, i) && |x| > 0 && Before(b0, c, p, x, i) == (0, []) && (i >= m || m == |c|)
    ensures var d := WrittenChain(b0, c, p, x);
      && ChainAt(b, d, bs) && Storage(b, d) == Pour(Storage(b0, c), p, x).data
  {
    hide ExtentAt, DataOf, Pour, PouredAt, Before, Written;
    var d := WrittenChain(b0, c, p, x);
    forall k | 0 <= k < |c|
      ensures ExtentAt(b, d[k], Next(d, k), bs) && DataOf(b, d[k]) == PouredAt(b0, c, p, x, k)
    {
      WrittenByIndex(b0, c, p, x, k);
      NextWritten(b0, c, p, x, k);
      if k >= i {
        RestUntouched(b0, c, p, x, i, k);
      }
    }
    ChainByIndex(b, d, bs);
    StorageIs(b0, b, c, d, p, x, |c|);
    assert c[..|c|] == c && d[..|c|] == d;
  }

  lemma NextWritten(b: map<Sector, Block>, c: seq<Ext>, p: nat, x: seq<Byte>, k: nat)
    requires k < |c|
    ensures Next(WrittenChain(b, c, p, x), k) == Next(c, k)
  {
    if k + 1 < |c| {
      WrittenByIndex(b, c, p, x, k + 1);
    }
  }

  // The loop of spfs_write; its two closing assertions hold.
  method WriteChain(disk: Disk, start: Sector, input: seq<Byte>, ppos: nat, extra: Sector, ghost c: seq<Ext>,
                    ghost m: nat)
    returns (written: nat)
    requires |input| > 0 && Pending(disk.blocks, c, m, disk.bs) && start == First(c)
    requires extra == if m < |c| then c[m].start else 0
    requires ppos + |input| <= |Storage(disk.blocks, c)|
    requires m < |c| ==> ppos + |input| > |Storage(disk.blocks, c[..m])|
    modifies disk
    ensures written == |input|
    ensures var d := WrittenChain(old(disk.blocks), c, ppos, input);
      && ChainAt(disk.blocks, d, disk.bs)
      && Storage(disk.blocks, d) == Pour(Storage(old(disk.blocks), c), ppos, input).data
    ensures forall y :: y in old(disk.blocks) && y !in ChainSecs(c) ==>
      y in disk.blocks && disk.blocks[y] == old(disk.blocks)[y]
    ensures disk.blocks.Keys == old(disk.blocks).Keys
  {
    hide ExtentAt, DataOf, Pour, Storage, WrittenChain, ChainApart, PouredAt, WrittenAt, Before, Written;
    ghost var b0, bs := disk.blocks, disk.bs;
    ghost var i := 0;
    var cur, rest, pos, pending := start, input, ppos, extra;
    StartUnderway(b0, c, m, bs, ppos, input);
    BeforeStart(b0, c, ppos, input);
    written := 0;
    while cur != 0
      invariant i <= |c| && Underway(b0, disk.blocks, c, m, bs, ppos, input, i)
      invariant disk.blocks.Keys == b0.Keys
      invariant (pos, rest) == Before(b0, c, ppos, input, i)
      invariant |rest| > 0 && |rest| <= |input| && written == |input| - |rest|
      invariant cur == if i < |c| then c[i].start else 0
      invariant pending == if i < m then extra else 0
      decreases |c| - i
    {
      var ok, h;
      ghost var b1 := disk.blocks;
      WrittenSame(b0, b1, c, ppos, input, i, pos, rest);
      ok, h, rest, pos, pending := WriteFileExtent(disk, cur, rest, pos, pending, c[i], OldNext(c, m, i));
      StepUnderway(b0, b1, disk.blocks, c, m, bs, ppos, input, i);
      written := |input| - |rest|;
      i := i + 1;
      InputUsed(b0, c, ppos, input, i);
      if |rest| == 0 {
        break;
      }
      cur := h.next;
    }
    InputUsed(b0, c, ppos, input, i);
    assert c[..|c|] == c;
    if i < m && m < |c| { StorageMono(b0, c, i, m); }
    assert pending == 0;
    assert |rest| == 0;
    FinishUnderway(b0, disk.blocks, c, m, bs, ppos, input, i);
  }

  lemma BeforeStart(b: map<Sector, Block>, c: seq<Ext>, p: nat, x: seq<Byte>)
    ensures Before(b, c, p, x, 0) == (p, x)
  {
  }

  // The sectors of a chain hold raw bytes; as long as they do not change, neither does the file.
  lemma {:induction false} ChainRaw(b: map<Sector, Block>, c: seq<Ext>, bs: nat)
    requires ChainAt(b, c, bs)
    ensures forall x :: x in ChainSecs(c) ==> x in b && b[x].Raw? && |b[x].bytes| == bs && x != 0
  {
    if |c| > 0 {
      ChainRaw(b, c[1..], bs);
      assert forall x :: x in Run(c[0].start, c[0].blocks) ==> InRun(x, c[0].start, c[0].blocks);
    }
  }

  lemma {:induction false} ChainKept(b: map<Sector, Block>, b': map<Sector, Block>, c: seq<Ext>, bs: nat)
    requires ChainAt(b, c, bs)
    requires forall x :: x in ChainSecs(c) && x in b ==> x in b' && b'[x] == b[x]
    ensures ChainAt(b', c, bs) && Storage(b', c) == Storage(b, c) && Readable(b', c) == Readable(b, c)
  {
    hide ExtentAt, DataOf, InUse;
    if |c| > 0 {
      ChainRaw(b, c, bs);
      forall y | c[0].start <= y < c[0].start + c[0].blocks ensures y in b && y in b' && b'[y] == b[y] {
        assert InRun(y, c[0].start, c[0].blocks);
        assert y in Run(c[0].start, c[0].blocks);
      }
      ExtentKept(b, b', c[0], First(c[1..]), bs);
      ChainKept(b, b', c[1..], bs);
    }
  }

  lemma {:induction false} SecsAppendChain(c: seq<Ext>, e: Ext)
    requires ChainApart(c) && ChainSecs(c) !! Run(e.start, e.blocks)
    ensures ChainApart(c + [e]) && ChainSecs(c + [e]) == ChainSecs(c) + Run(e.start, e.blocks)
  {
    if |c| == 0 {
      assert c + [e] == [e] && ChainSecs([e][1..]) == {};
    } else {
      assert (c + [e])[1..] == c[1..] + [e];
      SecsAppendChain(c[1..], e);
    }
  }

  lemma {:induction false} CapacityAppend(c: seq<Ext>, e: Ext, bs: nat)
    ensures Capacity(c + [e], bs) == Capacity(c, bs) + DataBytes(e.blocks, bs)
  {
    if |c| == 0 {
      assert c + [e] == [e] && Capacity([e][1..], bs) == 0;
    } else {
      assert (c + [e])[1..] == c[1..] + [e];
      CapacityAppend(c[1..], e, bs);
    }
  }

  lemma {:induction false} WrittenShape(b: map<Sector, Block>, c: seq<Ext>, p: nat, x: seq<Byte>, bs: nat)
    ensures var d := WrittenChain(b, c, p, x);
      First(d) == First(c) && ChainSecs(d) == ChainSecs(c) && Capacity(d, bs) == Capacity(c, bs)
      && (ChainApart(c) ==> ChainApart(d))
  {
    hide Pour, DataOf, Reach;
    if |c| > 0 {
      var r := Pour(DataOf(b, c[0]), p, x);
      WrittenShape(b, c[1..], r.pos, r.rest, bs);
      var d := WrittenChain(b, c, p, x);
      assert d[1..] == WrittenChain(b, c[1..], r.pos, r.rest);
    }
  }
}
