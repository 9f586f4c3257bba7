// Reading and writing a regular file (sp.c): the in-memory inode and its two operations.

module RegularFiles {
  import opened Entries
  import opened Disks
  import opened FreeLists
  import opened Words
  import opened Streams
  import opened Extents
  import opened Chains
  import opened Files
  import opened Trees
  import opened Layouts
  import opened BTrees
  import opened Supers

  // A file in place: linked, filled front to back, and clear of the free sectors.
  ghost predicate FileAt(b: map<Sector, Block>, av: set<Sector>, bs: nat, start: Sector, capacity: int, size: nat,
                         chain: seq<Ext>) {
    && ChainAt(b, chain, bs) && start == First(chain) && capacity == Capacity(chain, bs)
    && Filled(chain, bs, size) && ChainApart(chain) && ChainSecs(chain) !! av
  }

  ghost function FileBytes(b: map<Sector, Block>, chain: seq<Ext>, size: nat): seq<Byte> {
    var s := Storage(b, chain);
    if size <= |s| then s[..size] else s
  }

  // spfs_blocks_for: the least number of blocks holding that many bytes.
  method BlocksFor(bs: nat, bytes: nat) returns (result: nat)
    requires bs > 0
    ensures bytes <= result * bs
    ensures forall n: nat :: bytes <= n * bs ==> result <= n
  {
    result := 0;
    var left := bytes;
    while left > 0
      invariant left == if result * bs >= bytes then 0 else bytes - result * bs
      invariant result > 0 ==> (result - 1) * bs < bytes
    {
      assert (result + 1) * bs == result * bs + bs;
      result := result + 1;
      left := left - Min(left, bs);
    }
    forall n: nat | bytes <= n * bs ensures result <= n {
      if n < result { MulLe(n, result - 1, bs); }
    }
  }

  // spfs_calc_extra_blocks: the least extent that makes room, header included.
  method CalcExtraBlocks(bs: nat, capacity: nat, pos: nat, len: nat) returns (result: nat)
    requires bs > 0
    ensures result == 0 <==> pos + len <= capacity
    ensures result > 0 ==> pos + len <= capacity + DataBytes(result, bs)
    ensures forall n: nat :: pos + len > capacity && pos + len <= capacity + DataBytes(n, bs) ==> result <= n
  {
    var end := pos + len;
    if end <= capacity {
      return 0;
    }
    result := BlocksFor(bs, end - capacity + HEADER_SIZE);
  }

  // The least number of blocks whose data bytes make up for the missing capacity.
  ghost predicate LeastBlocks(bs: nat, capacity: nat, end: nat, n: nat) {
    end <= capacity + DataBytes(n, bs) && forall k: nat :: end <= capacity + DataBytes(k, bs) ==> n <= k
  }

  // A file made ready for a write of n bytes at p: all extents c to write along, the first m of
  // them linked, room for the write, and the old bytes in front.
  ghost predicate Ready(b: map<Sector, Block>, av: set<Sector>, bs: nat, c: seq<Ext>, m: nat, extra: Sector,
                        size: nat, end: nat, start: Sector, capacity: int) {
    && Pending(b, c, m, bs) && DataSized(b, c, bs) && ChainSecs(c) !! av
    && start == First(c) && extra == (if m < |c| then c[m].start else 0)
    && capacity == Capacity(c, bs) && end <= capacity
    && (m == |c| ==> Filled(c, bs, size))
    && (m < |c| ==> Filled(c[..m], bs, size) && size <= Capacity(c[..m], bs) < end && c[m].length == 0)
  }

  lemma SmallExtent(b: map<Sector, Block>, e: Ext, next: Sector, bs: nat)
    requires ExtentAt(b, e, next, bs) && Small(b, bs)
    ensures e.blocks * bs <= TWO_32 && e.start < TWO_32
  {
    var last := e.start + e.blocks - 1;
    assert last in b;
    MulLe(e.blocks, last + 1, bs);
    MulLe(e.start + 1, last + 1, bs);
    MulLe(1, bs, e.start + 1);
  }

  lemma ChainFacts(b: map<Sector, Block>, c: seq<Ext>, bs: nat)
    requires ChainAt(b, c, bs) && Small(b, bs)
    ensures DataSized(b, c, bs)
    ensures forall k :: 0 <= k < |c| ==>
      ExtentAt(b, c[k], Next(c, k), bs) && c[k].blocks * bs <= TWO_32 && c[k].start < TWO_32
  {
    hide ExtentAt, DataOf, Small;
    ChainByIndex(b, c, bs);
    forall k | 0 <= k < |c|
      ensures |DataOf(b, c[k])| == DataBytes(c[k].blocks, bs) && c[k].blocks * bs <= TWO_32 && c[k].start < TWO_32
    {
      FrontIsData(b, c[k], Next(c, k), bs);
      SmallExtent(b, c[k], Next(c, k), bs);
    }
  }

  // No new extent is needed.
  lemma ReadySame(b: map<Sector, Block>, av: set<Sector>, bs: nat, start: Sector, capacity: nat, size: nat,
                  chain: seq<Ext>, end: nat)
    requires FileAt(b, av, bs, start, capacity, size, chain) && Small(b, bs) && 0 < end <= capacity
    ensures Ready(b, av, bs, chain, |chain|, 0, size, end, start, capacity)
  {
    hide ExtentAt, Small;
    ChainFacts(b, chain, bs);
  }

  // A new extent waits behind the old ones, or is the first.
  lemma ReadyNew(b0: map<Sector, Block>, b: map<Sector, Block>, av0: set<Sector>, av: set<Sector>, bs: nat,
                 start: Sector, capacity: nat, size: nat, chain: seq<Ext>, end: nat, e: Ext)
    requires FileAt(b0, av0, bs, start, capacity, size, chain) && Small(b, bs)
    requires capacity < end <= capacity + DataBytes(e.blocks, bs)
    requires ExtentAt(b, e, 0, bs) && e.length == 0 && Run(e.start, e.blocks) <= av0
    requires av == av0 - Run(e.start, e.blocks)
    requires forall x :: x in ChainSecs(chain) && x in b0 ==> x in b && b[x] == b0[x]
    ensures var c := chain + [e]; var m := Max(1, |chain|);
      && Ready(b, av, bs, c, m, if |chain| == 0 then 0 else e.start, size, end,
               if |chain| == 0 then e.start else start, capacity + DataBytes(e.blocks, bs))
      && ChainSecs(c) == ChainSecs(chain) + Run(e.start, e.blocks)
      && Storage(b, c) == Storage(b0, chain) + DataOf(b, e)
  {
    hide ExtentAt, DataOf, Small, ChainAt, ChainSecs, Storage, ChainApart, Filled, Capacity, Run, OldNext, DataSized,
      Pending;
    var c := chain + [e];
    ChainKept(b0, b, chain, bs);
    SecsAppendChain(chain, e);
    PendingNew(b, bs, chain, e);
    CapacityAppend(chain, e, bs);
    StorageAppend(b, chain, [e]);
    StorageOne(b, e);
    EmptyChain(bs, size, e);
    FilledBound(b, chain, bs, size);
    assert c[..|chain|] == chain;
    assert |chain| == 0 ==> c == [e];
  }

  lemma EmptyChain(bs: nat, size: nat, e: Ext)
    ensures Capacity([], bs) == 0 && (Filled([], bs, size) && e.length == 0 ==> Filled([e], bs, size))
  {
  }

  lemma PendingNew(b: map<Sector, Block>, bs: nat, chain: seq<Ext>, e: Ext)
    requires ChainAt(b, chain, bs) && ExtentAt(b, e, 0, bs) && Small(b, bs) && ChainApart(chain + [e])
    ensures Pending(b, chain + [e], Max(1, |chain|), bs) && DataSized(b, chain + [e], bs)
  {
    hide ExtentAt, DataOf, Small, ChainApart;
    ChainFacts(b, chain, bs);
    SmallExtent(b, e, 0, bs);
    FrontIsData(b, e, 0, bs);
    var c, m := chain + [e], Max(1, |chain|);
    forall k | 0 <= k < |c|
      ensures ExtentAt(b, c[k], OldNext(c, m, k), bs) && c[k].blocks * bs <= TWO_32 && c[k].start < TWO_32
      ensures |DataOf(b, c[k])| == DataBytes(c[k].blocks, bs)
    {
      if k < |chain| {
        assert ExtentAt(b, chain[k], Next(chain, k), bs);
        assert OldNext(c, m, k) == Next(chain, k);
      }
    }
  }

  lemma StorageOne(b: map<Sector, Block>, e: Ext)
    ensures Storage(b, [e]) == DataOf(b, e)
  {
    hide DataOf;
    assert [e][1..] == [];
  }

  lemma FilledBound(b: map<Sector, Block>, c: seq<Ext>, bs: nat, size: int)
    requires ChainAt(b, c, bs) && Filled(c, bs, size)
    ensures 0 <= size <= Capacity(c, bs)
  {
    ReadableIsContent(b, c, bs, size);
    StorageSize(b, c, bs);
  }

  // Besides the named sectors, only inode blocks and sectors taken from the free space change.
  ghost predicate Touched(b: map<Sector, Block>, b': map<Sector, Block>, av: set<Sector>, av': set<Sector>,
                          own: set<Sector>) {
    && b'.Keys == b.Keys && av' <= av && FreeKept(b, b', av')
    && forall x :: x in b && x !in own && x !in av && !b[x].InodeB? ==> b'[x] == b[x]
  }

  lemma TouchedRefl(b: map<Sector, Block>, av: set<Sector>)
    ensures Touched(b, b, av, av, {})
  {
  }

  // The allocation of a new extent followed by the update of the inode block.
  lemma GrownFile(b0: map<Sector, Block>, b1: map<Sector, Block>, b: map<Sector, Block>, av0: set<Sector>,
                  av: set<Sector>, bs: nat, start: Sector, capacity: nat, size: nat, chain: seq<Ext>, end: nat,
                  e: Ext)
    requires FileAt(b0, av0, bs, start, capacity, size, chain) && capacity < end <= capacity + DataBytes(e.blocks, bs)
    requires Run(e.start, e.blocks) <= av0 && av == av0 - Run(e.start, e.blocks)
    requires ExtentAt(b1, e, 0, bs) && e.length == 0 && Clean(b0, av0, bs) && Small(b0, bs) && Clean(b1, av, bs)
    requires e.start in b1 && b1 == b0[e.start := b1[e.start]] && b1.Keys == b0.Keys && InodesOnly(b1, b)
    ensures Clean(b, av, bs) && Small(b, bs) && Touched(b0, b, av0, av, {})
    ensures start == 0 <==> |chain| == 0
    ensures var c := chain + [e];
      && Ready(b, av, bs, c, Max(1, |chain|), if |chain| == 0 then 0 else e.start, size, end,
               if |chain| == 0 then e.start else start, capacity + DataBytes(e.blocks, bs))
      && ChainSecs(c) <= ChainSecs(chain) + av0 && Storage(b0, chain) <= Storage(b, c)
      && ChainSecs(c) + av == ChainSecs(chain) + av0
  {
    hide ExtentAt, Storage, ChainSecs, ChainApart, Filled, Ready, Capacity;
    ChainRaw(b0, chain, bs);
    ExtentRaw(b1, e, 0, bs);
    assert InRun(e.start, e.start, e.blocks) by { ExtentRaw(b1, e, 0, bs); }
    ExtentKept(b1, b, e, 0, bs);
    ReadyNew(b0, b, av0, av, bs, start, capacity, size, chain, end, e);
    ChainStart(b0, chain, bs);
  }

  lemma ExtentRaw(b: map<Sector, Block>, e: Ext, next: Sector, bs: nat)
    requires ExtentAt(b, e, next, bs)
    ensures e.start != 0 && e.blocks >= 1
    ensures forall y :: e.start <= y < e.start + e.blocks ==> y in b && b[y].Raw?
  {
  }

  lemma ChainStart(b: map<Sector, Block>, c: seq<Ext>, bs: nat)
    requires ChainAt(b, c, bs)
    ensures First(c) == 0 <==> |c| == 0
  {
  }

  lemma {:induction false} StorageSized(b: map<Sector, Block>, c: seq<Ext>, bs: nat)
    requires DataSized(b, c, bs)
    ensures |Storage(b, c)| == Capacity(c, bs)
  {
    hide DataOf;
    if |c| > 0 {
      assert forall k :: 0 <= k < |c[1..]| ==> c[1..][k] == c[k + 1];
      StorageSized(b, c[1..], bs);
    }
  }

  lemma ReadyRoom(b: map<Sector, Block>, av: set<Sector>, bs: nat, c: seq<Ext>, m: nat, extra: Sector, size: nat,
                  end: nat, start: Sector, capacity: int)
    requires Ready(b, av, bs, c, m, extra, size, end, start, capacity)
    ensures |Storage(b, c)| == capacity >= end && m <= |c|
    ensures m < |c| ==> size <= |Storage(b, c[..m])| < end
  {
    hide Filled, Pending, Capacity, DataOf;
    assert m <= |c| by { PendingLen(b, c, m, bs); }
    StorageSized(b, c, bs);
    StorageSized(b, c[..m], bs);
  }

  lemma ReadyParts(b: map<Sector, Block>, av: set<Sector>, bs: nat, c: seq<Ext>, m: nat, extra: Sector, size: nat,
                   end: nat, start: Sector, capacity: int)
    requires Ready(b, av, bs, c, m, extra, size, end, start, capacity)
    ensures Pending(b, c, m, bs) && start == First(c)
    ensures extra == (if m < |c| then c[m].start else 0) && ChainSecs(c) !! av
  {
  }

  lemma PendingLen(b: map<Sector, Block>, c: seq<Ext>, m: nat, bs: nat)
    requires Pending(b, c, m, bs)
    ensures 1 <= m <= |c| <= m + 1 && ChainApart(c)
  {
  }

  // The write has been poured into the chain: the file is in order again and its bytes are the
  // old ones with the input written over them.
  lemma WriteDone(b: map<Sector, Block>, b': map<Sector, Block>, av: set<Sector>, bs: nat, c: seq<Ext>, m: nat,
                  extra: Sector, size: nat, p: nat, x: seq<Byte>, start: Sector, capacity: int)
    requires Ready(b, av, bs, c, m, extra, size, p + |x|, start, capacity) && p <= size <= capacity && |x| > 0
    requires ChainAt(b', WrittenChain(b, c, p, x), bs)
    requires Storage(b', WrittenChain(b, c, p, x)) == Pour(Storage(b, c), p, x).data
    ensures var d := WrittenChain(b, c, p, x); var size' := Max(size, p + |x|);
      && FileAt(b', av, bs, start, capacity, size', d) && size <= |Storage(b, c)|
      && FileBytes(b', d, size') == Overwrite(Storage(b, c)[..size], p, x)
      && ChainSecs(d) == ChainSecs(c)
  {
    hide ChainAt, Storage, WrittenChain, Filled, ChainSecs, ChainApart, Pour, Overwrite, Pending, DataSized, Capacity;
    ReadyRoom(b, av, bs, c, m, extra, size, p + |x|, start, capacity);
    PendingLen(b, c, m, bs);
    WrittenShape(b, c, p, x, bs);
    if m == |c| {
      FilledWrite(b, c, bs, p, x, size);
    } else {
      assert c == c[..m] + [c[m]] by { PendingLen(b, c, m, bs); }
      CapacityAppend(c[..m], c[m], bs);
      FilledGrow(b, c[..m], c[m], bs, p, x, size);
    }
    PourOverwrites(Storage(b, c), size, p, x);
  }

  // What the loop of spfs_write leaves alone.
  lemma WriteAside(b: map<Sector, Block>, b': map<Sector, Block>, av: set<Sector>, bs: nat, c: seq<Ext>, d: seq<Ext>)
    requires Clean(b, av, bs) && Small(b, bs) && b'.Keys == b.Keys && ChainSecs(c) !! av && ChainSecs(d) == ChainSecs(c)
    requires ChainAt(b', d, bs) && forall k :: k in ChainSecs(c) ==> k in b && b[k].Raw?
    requires forall y :: y in b && y !in ChainSecs(c) ==> y in b' && b'[y] == b[y]
    ensures Clean(b', av, bs) && Small(b', bs) && RawOnly(b, b')
  {
    ChainRaw(b', d, bs);
  }

  lemma PendingRaw(b: map<Sector, Block>, c: seq<Ext>, m: nat, bs: nat)
    requires Pending(b, c, m, bs)
    ensures forall y :: y in ChainSecs(c) ==> y in b && b[y].Raw?
  {
    hide ChainApart, HeaderIs, ChainSecs;
    forall y | y in ChainSecs(c) ensures y in b && b[y].Raw? {
      var k := SecOwner(c, y);
      ExtentRaw(b, c[k], OldNext(c, m, k), bs);
    }
  }

  lemma {:induction false} SecOwner(c: seq<Ext>, y: Sector) returns (k: nat)
    requires y in ChainSecs(c)
    ensures k < |c| && c[k].start <= y < c[k].start + c[k].blocks
  {
    if y in Run(c[0].start, c[0].blocks) {
      k := 0;
    } else {
      k := SecOwner(c[1..], y);
      k := k + 1;
    }
  }

  lemma TouchedThen(b0: map<Sector, Block>, b: map<Sector, Block>, b': map<Sector, Block>, av0: set<Sector>,
                    av: set<Sector>, own: set<Sector>, cs: set<Sector>)
    requires Touched(b0, b, av0, av, {}) && b'.Keys == b.Keys && cs <= own + av0 && cs !! av
    requires forall y :: y in b && y !in cs ==> y in b' && b'[y] == b[y]
    ensures Touched(b0, b', av0, av, own)
  {
  }

  // The bytes in front are those the file had.
  lemma PrefixTake<T>(s: seq<T>, t: seq<T>, n: nat)
    requires s <= t && n <= |s|
    ensures t[..n] == s[..n]
  {
  }

  lemma {:induction false} ReadableAppend(b: map<Sector, Block>, c: seq<Ext>, d: seq<Ext>)
    ensures Readable(b, c + d) == Readable(b, c) + Readable(b, d)
  {
    hide InUse;
    if |c| == 0 {
      assert c + d == d;
    } else {
      assert (c + d)[1..] == c[1..] + d;
      ReadableAppend(b, c[1..], d);
    }
  }

  lemma ReadableNext(b: map<Sector, Block>, c: seq<Ext>, i: nat)
    requires i < |c|
    ensures Readable(b, c[..i + 1]) == Readable(b, c[..i]) + InUse(b, c[i])
  {
    hide InUse;
    assert c[..i + 1] == c[..i] + [c[i]];
    ReadableAppend(b, c[..i], [c[i]]);
    assert Readable(b, [c[i]]) == InUse(b, c[i]) + Readable(b, [c[i]][1..]);
  }

  lemma ReadableFront(b: map<Sector, Block>, c: seq<Ext>, i: nat)
    requires i <= |c|
    ensures var d := Readable(b, c); var k := |Readable(b, c[..i])|; k <= |d| && d[..k] == Readable(b, c[..i])
    ensures i == |c| ==> |Readable(b, c[..i])| == |Readable(b, c)|
  {
    hide InUse;
    assert c == c[..i] + c[i..];
    ReadableAppend(b, c[..i], c[i..]);
  }

  lemma ReadableNone(b: map<Sector, Block>, c: seq<Ext>)
    ensures Readable(b, c[..0]) == []
  {
  }

  lemma DrainZero(d: seq<Byte>, p: nat)
    ensures Drain(d, p, 0).out == []
  {
  }

  lemma NextStart(b: map<Sector, Block>, c: seq<Ext>, i: nat, bs: nat)
    requires 0 < i <= |c|
    requires forall k :: 0 <= k < |c| ==> ExtentAt(b, c[k], Next(c, k), bs)
    ensures Next(c, i - 1) == if i < |c| then c[i].start else 0
    ensures i < |c| ==> c[i].start != 0
  {
  }

  // What POSIX read promises of a flat byte string.
  ghost function Part(s: seq<Byte>, p: nat, n: nat): seq<Byte> {
    s[Min(p, |s|)..Min(p + n, |s|)]
  }

  lemma DrainPart(s: seq<Byte>, p: nat, n: nat)
    ensures Drain(s, p, n).out == Part(s, p, n)
  {
  }

  // Reading skips by length and writing by capacity: on a file in order both see the same bytes.
  lemma BytesReadable(b: map<Sector, Block>, av: set<Sector>, bs: nat, start: Sector, capacity: int, size: nat,
                      chain: seq<Ext>)
    requires FileAt(b, av, bs, start, capacity, size, chain)
    ensures Readable(b, chain) == FileBytes(b, chain, size) && |FileBytes(b, chain, size)| == size <= capacity
    ensures forall k :: 0 <= k < |chain| ==> ExtentAt(b, chain[k], Next(chain, k), bs)
  {
    hide ExtentAt, DataOf, ChainApart, ChainSecs;
    ReadableIsContent(b, chain, bs, size);
    StorageSize(b, chain, bs);
    ChainByIndex(b, chain, bs);
  }

  // struct spfs_inode of a regular file.
  class SpInode {
    const ino: nat
    var start: Sector
    var capacity: nat
    var size: nat
    ghost var chain: seq<Ext>

    // spfs_inode_init_once, with the number the file system chose.
    constructor (ino: nat)
      ensures this.ino == ino && start == 0 && capacity == 0 && size == 0 && chain == []
    {
      this.ino, start, capacity, size, chain := ino, 0, 0, 0, [];
    }

    ghost predicate Valid(sb: SuperBlock)
      reads this, sb.disk, sb.free, sb.free.spine
    {
      FileAt(sb.disk.blocks, sb.free.Avail(), sb.disk.bs, start, capacity, size, chain)
    }

    // The flat byte string this file stands for.
    ghost function Bytes(sb: SuperBlock): seq<Byte>
      reads this, sb.disk
    {
      FileBytes(sb.disk.blocks, chain, size)
    }

    // spfs_ensure_capacity; extra is a new extent still to be linked, 0 when there is none.
    method EnsureCapacity(sb: SuperBlock, pos: nat, len: nat)
      returns (ok: bool, extra: Sector, ghost n: nat, ghost c: seq<Ext>, ghost m: nat)
      requires sb.Valid() && Valid(sb) && ino in sb.tree.Index() && pos <= size && len > 0
      modifies `start, `capacity, sb.disk, sb.free`blocks, sb.free.spine
      ensures sb.Valid()
      ensures pos + len > old(capacity) ==> LeastBlocks(sb.disk.bs, old(capacity), pos + len, n)
      ensures ok <==> pos + len <= old(capacity) || Carve(old(sb.free.Exts()), n).0 != 0
      ensures !ok ==> sb.disk.blocks == old(sb.disk.blocks) && sb.free.Avail() == old(sb.free.Avail())
      ensures !ok ==> start == old(start) && capacity == old(capacity) && sb.tree.Index() == old(sb.tree.Index())
      ensures ok ==>
        && Ready(sb.disk.blocks, sb.free.Avail(), sb.disk.bs, c, m, extra, size, pos + len, start, capacity)
        && ChainSecs(c) <= ChainSecs(chain) + old(sb.free.Avail())
        && ChainSecs(c) + sb.free.Avail() == ChainSecs(chain) + old(sb.free.Avail())
        && old(Storage(sb.disk.blocks, chain)) <= Storage(sb.disk.blocks, c)
      ensures pos + len <= old(capacity) || old(start) != 0 ==> start == old(start)
      ensures sb.free.Exts() ==
        if pos + len <= old(capacity) then old(sb.free.Exts()) else Carve(old(sb.free.Exts()), n).1
      ensures ok ==> capacity == old(capacity) + if pos + len <= old(capacity) then 0 else DataBytes(n, sb.disk.bs)
      ensures ok ==> sb.tree.Index() == if pos + len <= old(capacity) then old(sb.tree.Index())
                       else old(sb.tree.Index())[ino := Inode(old(sb.tree.Index())[ino].ino, capacity, start)]
      ensures Touched(old(sb.disk.blocks), sb.disk.blocks, old(sb.free.Avail()), sb.free.Avail(), {})
    {
      hide ExtentAt, Storage, Stored, Homes, Flat, Secs, Inodes, ChainSecs, ChainAt, ChainApart, Filled, Ready, Clean,
        Small, FreeList.Avail, FreeList.Valid, FreeList.Exts, Carve, BTree.Index, BTree.Valid;
      ghost var b0, av0, start0, cap0 := sb.disk.blocks, sb.free.Avail(), start, capacity;
      extra, c, m := 0, chain, |chain|;
      ok := true;
      var blocks := CalcExtraBlocks(sb.disk.bs, capacity, pos, len);
      n := blocks;
      TouchedRefl(b0, av0);
      if blocks == 0 {
        ReadySame(b0, av0, sb.disk.bs, start, capacity, size, chain, pos + len);
        return;
      }
      extra := sb.FileExtentAlloc(blocks);
      if extra == 0 {
        ok := false;
        return;
      }
      ghost var e := Ext(extra, blocks, 0);
      ghost var b1 := sb.disk.blocks;
      if start == 0 {
        start := extra;
        extra := 0;
      }
      capacity := capacity + (blocks * sb.disk.bs - HEADER_SIZE);
      var s, cap := start, capacity;
      var res, seen;
      ghost var visits;
      res, seen, visits := sb.tree.SpfsModify(ino, (i: Inode) => Some(Inode(i.ino, cap, s)));
      c := chain + [e];
      m := Max(1, |chain|);
      GrownFile(b0, b1, sb.disk.blocks, av0, sb.free.Avail(), sb.disk.bs, start0, cap0, size, chain, pos + len, e);
    }

    // The rest of spfs_write, once there is room.
    method Fill(sb: SuperBlock, input: seq<Byte>, pos: nat, extra: Sector, ghost c: seq<Ext>,
                ghost m: nat) returns (count: nat)
      requires sb.Valid() && |input| > 0 && pos <= size <= capacity
      requires Ready(sb.disk.blocks, sb.free.Avail(), sb.disk.bs, c, m, extra, size, pos + |input|, start, capacity)
      modifies `size, `chain, sb.disk
      ensures sb.Valid() && Valid(sb) && sb.tree.Index() == old(sb.tree.Index())
      ensures count == |input| && size == Max(old(size), pos + |input|)
      ensures old(size) <= |old(Storage(sb.disk.blocks, c))|
      ensures Bytes(sb) == Overwrite(old(Storage(sb.disk.blocks, c))[..old(size)], pos, input)
      ensures ChainSecs(chain) == ChainSecs(c) && ChainSecs(c) !! sb.free.Avail()
      ensures sb.disk.blocks.Keys == old(sb.disk.blocks).Keys
      ensures forall y :: y in old(sb.disk.blocks) && y !in ChainSecs(c) ==>
        y in sb.disk.blocks && sb.disk.blocks[y] == old(sb.disk.blocks)[y]
    {
      hide ExtentAt, Storage, Stored, Homes, Flat, Secs, Inodes, ChainSecs, ChainAt, ChainApart, Filled, Ready, Clean,
        Small, FreeList.Avail, FreeList.Valid, FreeList.Exts, Pending, WrittenChain, Overwrite, Pour, RawOnly;
      ghost var b1, av, bs := sb.disk.blocks, sb.free.Avail(), sb.disk.bs;
      ReadyRoom(b1, av, bs, c, m, extra, size, pos + |input|, start, capacity);
      ReadyParts(b1, av, bs, c, m, extra, size, pos + |input|, start, capacity);
      PendingRaw(b1, c, m, bs);
      count := WriteChain(sb.disk, start, input, pos, extra, c, m);
      WriteDone(b1, sb.disk.blocks, av, bs, c, m, extra, size, pos, input, start, capacity);
      ghost var d := WrittenChain(b1, c, pos, input);
      WriteAside(b1, sb.disk.blocks, av, bs, c, d);
      TreeAside(b1, sb.disk.blocks, av, av, sb.tree.tree, sb.tree.height, 1, sb.tree.c);
      size := Max(size, pos + count);
      chain := d;
    }

    // spfs_write
    method Write(sb: SuperBlock, input: seq<Byte>, ppos: nat) returns (ok: bool, count: nat, newPos: nat, ghost n: nat)
      requires sb.Valid() && Valid(sb) && ino in sb.tree.Index()
      modifies `start, `capacity, `size, `chain, sb.disk, sb.free`blocks, sb.free.spine
      ensures sb.Valid() && Valid(sb) && old(size) == |old(Bytes(sb))|
      ensures input == [] ==> ok && count == 0 && newPos == ppos && Bytes(sb) == old(Bytes(sb))
      ensures input != [] && Min(ppos, old(size)) + |input| > old(capacity) ==>
        LeastBlocks(sb.disk.bs, old(capacity), Min(ppos, old(size)) + |input|, n)
      ensures input != [] ==>
        (ok <==> Min(ppos, old(size)) + |input| <= old(capacity) || Carve(old(sb.free.Exts()), n).0 != 0)
      ensures ok && input != [] ==>
        && count == |input| && newPos == Min(ppos, old(size)) + |input|
        && Bytes(sb) == Overwrite(old(Bytes(sb)), Min(ppos, old(size)), input)
      ensures !ok ==> newPos == Min(ppos, old(size)) && count == 0
      ensures !ok ==>
        && sb.disk.blocks == old(sb.disk.blocks) && sb.free.Avail() == old(sb.free.Avail())
        && Bytes(sb) == old(Bytes(sb))
        && start == old(start) && capacity == old(capacity) && chain == old(chain)
      ensures sb.tree.Index() == if capacity == old(capacity) then old(sb.tree.Index())
                else old(sb.tree.Index())[ino := Inode(old(sb.tree.Index())[ino].ino, capacity, start)]
      ensures capacity == old(capacity) || old(start) != 0 ==> start == old(start)
      ensures var grows := input != [] && Min(ppos, old(size)) + |input| > old(capacity);
        && sb.free.Exts() == (if grows then Carve(old(sb.free.Exts()), n).1 else old(sb.free.Exts()))
        && capacity == old(capacity) + if grows && ok then DataBytes(n, sb.disk.bs) else 0
      ensures size == if ok && input != [] then Max(old(size), Min(ppos, old(size)) + |input|) else old(size)
      ensures ChainSecs(chain) <= ChainSecs(old(chain)) + old(sb.free.Avail())
      ensures ChainSecs(chain) + sb.free.Avail() == ChainSecs(old(chain)) + old(sb.free.Avail())
      ensures Touched(old(sb.disk.blocks), sb.disk.blocks, old(sb.free.Avail()), sb.free.Avail(), ChainSecs(old(chain)))
    {
      hide ExtentAt, Storage, Stored, Homes, Flat, Secs, Inodes, ChainSecs, ChainAt, ChainApart, Filled, Ready, Clean,
        Small, FreeList.Avail, FreeList.Valid, FreeList.Exts, Carve, Pending, WrittenChain, Overwrite, Pour, RawOnly,
        LeastBlocks, BTree.Index;
      ok, count, newPos, n := true, 0, ppos, 0;
      ghost var b0, av0 := sb.disk.blocks, sb.free.Avail();
      TouchedRefl(b0, av0);
      FilledBound(b0, chain, sb.disk.bs, size);
      StorageSize(b0, chain, sb.disk.bs);
      if |input| == 0 {
        return;
      }
      if newPos > size {
        newPos := size;
      }
      var extra;
      ghost var c, m;
      ok, extra, n, c, m := EnsureCapacity(sb, newPos, |input|);
      if !ok {
        return;
      }
      ghost var b1, av, bs := sb.disk.blocks, sb.free.Avail(), sb.disk.bs;
      ReadyRoom(b1, av, bs, c, m, extra, size, newPos + |input|, start, capacity);
      PrefixTake(Storage(b0, chain), Storage(b1, c), size);
      count := Fill(sb, input, newPos, extra, c, m);
      TouchedThen(b0, b1, sb.disk.blocks, av0, av, ChainSecs(old(chain)), ChainSecs(c));
      newPos := newPos + count;
    }

    // spfs_read
    method Read(sb: SuperBlock, count: nat, ppos: nat) returns (out: seq<Byte>, newPos: nat)
      requires sb.Valid() && Valid(sb)
      ensures out == Part(Bytes(sb), ppos, count) && newPos == ppos + |out|
    {
      hide ExtentAt, InUse, Drain, Readable, Part, ChainAt, Filled, ChainApart, ChainSecs, Clean, Small, BTree.Valid,
        FreeList.Avail, FileBytes;
      out, newPos := [], ppos;
      ghost var b, d := sb.disk.blocks, Bytes(sb);
      BytesReadable(b, sb.free.Avail(), sb.disk.bs, start, capacity, size, chain);
      DrainPart(d, ppos, count);
      if count == 0 {
        DrainZero(d, ppos);
        return;
      }
      ghost var i := 0;
      var cur, left, pos := start, count, ppos;
      ChainStart(b, chain, sb.disk.bs);
      assert Readable(b, chain[..0]) == [] by { ReadableNone(b, chain); }
      DrainPast([], ppos, count);
      while cur != 0
        invariant i <= |chain| && cur == (if i < |chain| then chain[i].start else 0) && left > 0
        invariant cur == 0 ==> i == |chain|
        invariant Drained(out, pos, left) == Drain(Readable(b, chain[..i]), ppos, count)
        decreases |chain| - i
      {
        var ok, next, more;
        ok, next, more, left, pos := ReadFileExtent(sb.disk, cur, left, pos, chain[i], Next(chain, i));
        DrainAppend(Readable(b, chain[..i]), InUse(b, chain[i]), ppos, count);
        ReadableNext(b, chain, i);
        out := out + more;
        i := i + 1;
        if left == 0 {
          break;
        }
        NextStart(b, chain, i, sb.disk.bs);
        cur := next;
      }
      ReadableFront(b, chain, i);
      DrainRest(Readable(b, chain), |Readable(b, chain[..i])|, ppos, count);
      newPos := ppos + |out|;
    }
  }
}
