// A file as a chain of extents (sp.c): what the chain stores, and writing and reading along it.

module Chains {
  import opened Entries
  import opened Disks
  import opened FreeLists
  import opened Streams
  import opened Extents

  function First(c: seq<Ext>): Sector {
    if |c| == 0 then 0 else c[0].start
  }

  // The chain as linked on disk.
  ghost predicate ChainAt(b: map<Sector, Block>, c: seq<Ext>, bs: nat) {
    |c| == 0 || (ExtentAt(b, c[0], First(c[1..]), bs) && ChainAt(b, c[1..], bs))
  }

  ghost function ChainSecs(c: seq<Ext>): set<Sector> {
    if |c| == 0 then {} else Run(c[0].start, c[0].blocks) + ChainSecs(c[1..])
  }

  // No two extents of the chain share a sector.
  ghost predicate ChainApart(c: seq<Ext>) {
    |c| == 0 || (Run(c[0].start, c[0].blocks) !! ChainSecs(c[1..]) && ChainApart(c[1..]))
  }

  // All data bytes of the chain, used or not.
  ghost function Storage(b: map<Sector, Block>, c: seq<Ext>): seq<Byte> {
    if |c| == 0 then [] else DataOf(b, c[0]) + Storage(b, c[1..])
  }

  ghost function Capacity(c: seq<Ext>, bs: nat): int {
    if |c| == 0 then 0 else DataBytes(c[0].blocks, bs) + Capacity(c[1..], bs)
  }

  // Every extent before the last is full; the last holds what remains of the size.
  ghost predicate Filled(c: seq<Ext>, bs: nat, size: int) {
    if |c| == 0 then size == 0
    else if |c| == 1 then c[0].length == size
    else c[0].length == DataBytes(c[0].blocks, bs) && Filled(c[1..], bs, size - c[0].length)
  }

  // The bytes reading finds, extent by extent.
  ghost function Readable(b: map<Sector, Block>, c: seq<Ext>): seq<Byte> {
    if |c| == 0 then [] else InUse(b, c[0]) + Readable(b, c[1..])
  }

  lemma {:induction false} StorageSize(b: map<Sector, Block>, c: seq<Ext>, bs: nat)
    requires ChainAt(b, c, bs)
    ensures |Storage(b, c)| == Capacity(c, bs)
  {
    if |c| > 0 {
      FrontIsData(b, c[0], First(c[1..]), bs);
      StorageSize(b, c[1..], bs);
    }
  }

  // Skipping by length and skipping by capacity meet because of the full extents in front.
  lemma {:induction false} ReadableIsContent(b: map<Sector, Block>, c: seq<Ext>, bs: nat, size: int)
    requires ChainAt(b, c, bs) && Filled(c, bs, size)
    ensures 0 <= size <= |Storage(b, c)| && Readable(b, c) == Storage(b, c)[..size]
  {
    hide DataOf, HeaderIs, Sized;
    if |c| > 0 {
      FrontIsData(b, c[0], First(c[1..]), bs);
      if |c| == 1 {
        assert Storage(b, c[1..]) == [] && Readable(b, c[1..]) == [];
      } else {
        ReadableIsContent(b, c[1..], bs, size - c[0].length);
        TakeAcross(DataOf(b, c[0]), Storage(b, c[1..]), size);
      }
    }
  }

  // The position and the bytes left over before extent i of a chain is written.
  ghost function Before(b: map<Sector, Block>, c: seq<Ext>, p: nat, x: seq<Byte>, i: nat): (nat, seq<Byte>)
    requires i <= |c|
  {
    if i == 0 then (p, x) else
      var (q, y) := Before(b, c, p, x, i - 1);
      (Pour(DataOf(b, c[i - 1]), q, y).pos, Pour(DataOf(b, c[i - 1]), q, y).rest)
  }

  // Extent i after the write, and its data.
  ghost function WrittenAt(b: map<Sector, Block>, c: seq<Ext>, p: nat, x: seq<Byte>, i: nat): Ext
    requires i < |c|
  {
    var (q, y) := Before(b, c, p, x, i);
    Written(b, c[i], q, y)
  }

  ghost function PouredAt(b: map<Sector, Block>, c: seq<Ext>, p: nat, x: seq<Byte>, i: nat): seq<Byte>
    requires i < |c|
  {
    var (q, y) := Before(b, c, p, x, i);
    Pour(DataOf(b, c[i]), q, y).data
  }

  lemma StorageNext(b: map<Sector, Block>, c: seq<Ext>, i: nat)
    requires i < |c|
    ensures Storage(b, c[..i + 1]) == Storage(b, c[..i]) + DataOf(b, c[i])
  {
    hide DataOf;
    assert c[..i + 1] == c[..i] + [c[i]];
    StorageAppend(b, c[..i], [c[i]]);
    assert Storage(b, [c[i]]) == DataOf(b, c[i]) + Storage(b, [c[i]][1..]);
  }

  lemma {:induction false} StorageAppend(b: map<Sector, Block>, c: seq<Ext>, d: seq<Ext>)
    ensures Storage(b, c + d) == Storage(b, c) + Storage(b, d)
  {
    if |c| == 0 {
      assert c + d == d;
    } else {
      assert (c + d)[1..] == c[1..] + d;
      StorageAppend(b, c[1..], d);
    }
  }

  lemma EmptyStorage(b: map<Sector, Block>, p: nat, x: seq<Byte>)
    ensures Storage(b, []) == [] && Pour([], p, x) == Poured([], p, x)
  {
    PourPast([], p, x);
  }

  // Writing extent by extent is pouring into the whole storage.
  lemma {:induction false} BeforeIs(b: map<Sector, Block>, c: seq<Ext>, p: nat, x: seq<Byte>, i: nat)
    requires i <= |c|
    ensures var r := Pour(Storage(b, c[..i]), p, x); Before(b, c, p, x, i) == (r.pos, r.rest)
  {
    hide Pour, DataOf, Storage;
    if i == 0 {
      assert c[..0] == [];
      EmptyStorage(b, p, x);
    } else {
      BeforeIs(b, c, p, x, i - 1);
      StorageNext(b, c, i - 1);
      PourAppend(Storage(b, c[..i - 1]), DataOf(b, c[i - 1]), p, x);
    }
  }

  // The chain put together again from its written extents.
  lemma {:induction false} StorageIs(b: map<Sector, Block>, b': map<Sector, Block>, c: seq<Ext>, d: seq<Ext>, p: nat,
                                     x: seq<Byte>, i: nat)
    requires |d| == |c| && i <= |c|
    requires forall k :: 0 <= k < |c| ==> DataOf(b', d[k]) == PouredAt(b, c, p, x, k)
    ensures Storage(b', d[..i]) == Pour(Storage(b, c[..i]), p, x).data
  {
    hide Pour, DataOf, Storage, Before;
    if i == 0 {
      assert c[..0] == [] && d[..0] == [];
      EmptyStorage(b, p, x);
      EmptyStorage(b', p, x);
    } else {
      StorageIs(b, b', c, d, p, x, i - 1);
      BeforeIs(b, c, p, x, i - 1);
      StorageNext(b, c, i - 1);
      StorageNext(b', d, i - 1);
      PourAppend(Storage(b, c[..i - 1]), DataOf(b, c[i - 1]), p, x);
    }
  }

  function Next(c: seq<Ext>, k: nat): Sector {
    if k + 1 < |c| then c[k + 1].start else 0
  }

  // A chain is linked exactly when each extent names the next.
  lemma {:induction false} ChainByIndex(b: map<Sector, Block>, c: seq<Ext>, bs: nat)
    ensures ChainAt(b, c, bs) <==> forall k :: 0 <= k < |c| ==> ExtentAt(b, c[k], Next(c, k), bs)
  {
    if |c| > 0 {
      var t := c[1..];
      ChainByIndex(b, t, bs);
      assert Next(c, 0) == First(t);
      assert forall k :: 0 <= k < |t| ==> t[k] == c[k + 1] && Next(t, k) == Next(c, k + 1);
      if forall k :: 0 <= k < |t| ==> ExtentAt(b, t[k], Next(t, k), bs) {
        forall k | 0 < k < |c|
          ensures ExtentAt(b, c[k], Next(c, k), bs) <==> ExtentAt(b, t[k - 1], Next(t, k - 1), bs)
        {
        }
      }
      if forall k :: 0 <= k < |c| ==> ExtentAt(b, c[k], Next(c, k), bs) {
        forall k | 0 <= k < |t| ensures ExtentAt(b, t[k], Next(t, k), bs) {
          assert ExtentAt(b, c[k + 1], Next(c, k + 1), bs);
        }
      }
    }
  }

  // The chain after a write, extent by extent.
  ghost function WrittenChain(b: map<Sector, Block>, c: seq<Ext>, p: nat, x: seq<Byte>): (d: seq<Ext>)
    ensures |d| == |c|
  {
    if |c| == 0 then [] else
      var r := Pour(DataOf(b, c[0]), p, x);
      [Written(b, c[0], p, x)] + WrittenChain(b, c[1..], r.pos, r.rest)
  }

  lemma BeforeFirst(b: map<Sector, Block>, c: seq<Ext>, p: nat, x: seq<Byte>)
    ensures Before(b, c, p, x, 0) == (p, x)
    ensures |c| > 0 ==>
      var r := Pour(DataOf(b, c[0]), p, x); Before(b, c, p, x, 1) == (r.pos, r.rest)
    ensures |c| > 0 ==>
      var r := Pour(DataOf(b, c[0]), p, x); Before(b, c[1..], r.pos, r.rest, 0) == (r.pos, r.rest)
  {
    hide Pour, DataOf;
  }

  lemma {:induction false} BeforeShift(b: map<Sector, Block>, c: seq<Ext>, p: nat, x: seq<Byte>, i: nat)
    requires i < |c|
    ensures var r := Pour(DataOf(b, c[0]), p, x);
      Before(b, c, p, x, i + 1) == Before(b, c[1..], r.pos, r.rest, i)
  {
    hide Pour, DataOf;
    if i > 0 {
      BeforeShift(b, c, p, x, i - 1);
      assert c[1..][i - 1] == c[i];
    } else {
      BeforeFirst(b, c, p, x);
    }
  }

  lemma {:induction false} WrittenByIndex(b: map<Sector, Block>, c: seq<Ext>, p: nat, x: seq<Byte>, k: nat)
    requires k < |c|
    ensures WrittenChain(b, c, p, x)[k] == WrittenAt(b, c, p, x, k)
  {
    hide Pour, DataOf, Reach;
    if k > 0 {
      var r := Pour(DataOf(b, c[0]), p, x);
      WrittenByIndex(b, c[1..], r.pos, r.rest, k - 1);
      BeforeShift(b, c, p, x, k - 1);
      assert c[1..][k - 1] == c[k];
    }
  }

  // How far a write reaches into one extent, from the position relative to it.
  lemma ReachHere(len: nat, d: seq<Byte>, p: nat, x: seq<Byte>)
    ensures p >= |d| ==> Reach(len, 0, d, p, x) == len
    ensures p < |d| && |x| > 0 ==> Reach(len, 0, d, p, x) == Max(len, Min(|d|, p + |x|))
    ensures |x| == 0 ==> Reach(len, 0, d, p, x) == len
  {
  }

  ghost predicate DataSized(b: map<Sector, Block>, c: seq<Ext>, bs: nat) {
    forall k :: 0 <= k < |c| ==> |DataOf(b, c[k])| == DataBytes(c[k].blocks, bs)
  }

  // A write inside the capacity keeps all extents before the last full.
  lemma {:induction false} FilledWrite(b: map<Sector, Block>, c: seq<Ext>, bs: nat, p: nat, x: seq<Byte>, size: nat)
    requires DataSized(b, c, bs) && Filled(c, bs, size) && p <= size && p + |x| <= Capacity(c, bs)
    ensures Filled(WrittenChain(b, c, p, x), bs, Max(size, p + |x|))
  {
    hide Reach, DataOf, Pour, DataBytes;
    if |c| > 0 {
      var d, w := DataOf(b, c[0]), WrittenChain(b, c, p, x);
      ReachHere(c[0].length, d, p, x);
      assert DataSized(b, c[1..], bs);
      if |c| > 1 {
        PourCases(d, p, x);
        SizeLeft(c[1..], bs, size - c[0].length);
        CapacityNat(b, c[1..], bs);
        var r := Pour(d, p, x);
        FilledWrite(b, c[1..], bs, r.pos, r.rest, size - c[0].length);
        assert w[1..] == WrittenChain(b, c[1..], r.pos, r.rest);
      }
    }
  }

  lemma {:induction false} CapacityNat(b: map<Sector, Block>, c: seq<Ext>, bs: nat)
    requires DataSized(b, c, bs)
    ensures Capacity(c, bs) >= 0
  {
    if |c| > 0 {
      assert |DataOf(b, c[0])| == DataBytes(c[0].blocks, bs);
      CapacityNat(b, c[1..], bs);
    }
  }

  lemma {:induction false} SizeLeft(c: seq<Ext>, bs: nat, size: int)
    requires Filled(c, bs, size)
    ensures size >= 0
  {
    if |c| > 1 {
      SizeLeft(c[1..], bs, size - c[0].length);
    }
  }

  lemma PourCases(d: seq<Byte>, p: nat, x: seq<Byte>)
    ensures var r := Pour(d, p, x);
      if p >= |d| then r.pos == p - |d| && r.rest == x
      else r.pos == 0 && |r.rest| == if p + |x| > |d| then p + |x| - |d| else 0
  {
  }

  // A write into a fresh last extent fills the extents before it.
  lemma {:induction false} FilledGrow(b: map<Sector, Block>, c: seq<Ext>, n: Ext, bs: nat, p: nat, x: seq<Byte>,
                                      size: nat)
    requires |c| > 0 && DataSized(b, c + [n], bs) && Filled(c, bs, size) && p <= size && n.length == 0
    requires size <= Capacity(c, bs) < p + |x| <= Capacity(c, bs) + DataBytes(n.blocks, bs)
    ensures Filled(WrittenChain(b, c + [n], p, x), bs, p + |x|)
  {
    hide Reach, DataOf, Pour, DataBytes;
    var t := c + [n];
    var d, w := DataOf(b, c[0]), WrittenChain(b, t, p, x);
    var r := Pour(d, p, x);
    assert t[0] == c[0] && t[1..] == c[1..] + [n];
    assert forall k :: 0 <= k < |t[1..]| ==> t[1..][k] == t[k + 1];
    ReachHere(c[0].length, d, p, x);
    PourCases(d, p, x);
    assert w[1..] == WrittenChain(b, t[1..], r.pos, r.rest);
    if |c| == 1 {
      var e := DataOf(b, n);
      assert t[1..] == [n] && Capacity(c[1..], bs) == 0;
      ReachHere(0, e, r.pos, r.rest);
      assert w[1..] == [Written(b, n, r.pos, r.rest)] + WrittenChain(b, [n][1..], Pour(e, r.pos, r.rest).pos,
                                Pour(e, r.pos, r.rest).rest);
    } else {
      SizeLeft(c[1..], bs, size - c[0].length);
      FilledGrow(b, c[1..], n, bs, r.pos, r.rest, size - c[0].length);
    }
  }
}
