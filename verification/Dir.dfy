// Directories (sp.c): blocks of child numbers, written eight bytes apart and read back four by
// four, and the walk over all children.

module Directories {
  import opened Entries
  import opened Disks
  import opened FreeLists
  import opened Words
  import opened Extents
  import opened Layouts
  import opened BTrees
  import opened Supers
  import opened RegularFiles

  const DIR_MAGIC := 0xDEAD_BEEF
  const DIR_HEADER := 12
  const STRIDE := 8
  const FULL := 100

  // The block size from which on a full block of children fits.
  const ROOMY := DIR_HEADER + FULL * STRIDE

  // struct spfs_dir_block
  datatype DirHeader = DirHeader(next: Sector, children: nat)

  ghost predicate DirHeaderIs(s: seq<Byte>, h: DirHeader) {
    |s| >= DIR_HEADER && Word(s, 0) == DIR_MAGIC && Word(s, 4) == h.next && Word(s, 8) == h.children
  }

  // Where the writer puts child i.
  function Slot(i: nat): nat {
    DIR_HEADER + i * STRIDE
  }

  ghost predicate ZeroFrom(s: seq<Byte>, p: nat) {
    forall j :: p <= j < |s| ==> s[j] == 0
  }

  // Child i in its slot with an empty gap behind it.
  ghost predicate SlotIs(s: seq<Byte>, i: nat, child: nat) {
    Slot(i) + STRIDE <= |s| && Word(s, Slot(i)) == child != 0 && Word(s, Slot(i) + 4) == 0
  }

  ghost predicate DirBytes(s: seq<Byte>, next: Sector, kids: seq<nat>) {
    && |kids| <= FULL && DirHeaderIs(s, DirHeader(next, |kids|))
    && (forall i :: 0 <= i < |kids| ==> SlotIs(s, i, kids[i]))
    && ZeroFrom(s, Slot(|kids|))
  }

  // A block byte by byte: at most 100 children, one every eight bytes from byte 12 on, and zeros
  // around them.
  lemma DirLayout(s: seq<Byte>, next: Sector, kids: seq<nat>)
    ensures DirBytes(s, next, kids) <==>
              && |kids| <= 100 && |s| >= 12 && s[..4] == [0xDE, 0xAD, 0xBE, 0xEF]
              && BigEndian(s, 4, next) && next < TWO_32 && BigEndian(s, 8, |kids|)
              && (forall i :: 0 <= i < |kids| ==> ChildBytes(s, 12 + 8 * i, kids[i]))
              && ZeroFrom(s, 12 + 8 * |kids|)
  {
    hide Word, BigEndian;
    if |s| >= 12 {
      MagicBytes(s);
      WordIff(s, 4, next);
      WordIff(s, 8, |kids|);
    }
    forall i | 0 <= i < |kids| ensures SlotIs(s, i, kids[i]) <==> ChildBytes(s, 12 + 8 * i, kids[i]) {
      if Slot(i) + STRIDE <= |s| {
        WordIff(s, Slot(i), kids[i]);
        WordIff(s, Slot(i) + 4, 0);
      }
    }
  }

  ghost predicate ChildBytes(s: seq<Byte>, p: nat, child: nat) {
    p + 8 <= |s| && BigEndian(s, p, child) && 0 < child < TWO_32 && BigEndian(s, p + 4, 0)
  }

  lemma ZeroWord(s: seq<Byte>, p: nat)
    requires p + 4 <= |s| && forall j :: p <= j < p + 4 ==> s[j] == 0
    ensures Word(s, p) == 0
  {
    assert s[p..p + 4] == [0, 0, 0, 0];
  }

  // A child written into the next slot and counted in the header.
  lemma DirGrows(s: seq<Byte>, next: Sector, kids: seq<nat>, child: nat, t: seq<Byte>)
    requires DirBytes(s, next, kids) && 0 < child < TWO_32 && Slot(|kids|) + STRIDE <= |s| && |kids| < FULL
    requires |t| == |s| && DirHeaderIs(t, DirHeader(next, |kids| + 1))
    requires t[DIR_HEADER..] == Splice(s, Slot(|kids|), Enc(child))[DIR_HEADER..]
    ensures DirBytes(t, next, kids + [child])
  {
    hide Enc, Dec;
    var n := |kids|;
    var u := Splice(s, Slot(n), Enc(child));
    WordPut(s, Slot(n), child);
    forall i | 0 <= i <= n ensures SlotIs(t, i, (kids + [child])[i]) {
      assert Slot(i) <= Slot(n);
      SameWord(t, u, Slot(i));
      SameWord(t, u, Slot(i) + 4);
      if i < n {
        assert Slot(i) + STRIDE <= Slot(n);
        assert SlotIs(s, i, kids[i]);
        WordKeep(s, Slot(n), Enc(child), Slot(i));
        WordKeep(s, Slot(n), Enc(child), Slot(i) + 4);
      } else {
        WordKeep(s, Slot(n), Enc(child), Slot(n) + 4);
        ZeroWord(s, Slot(n) + 4);
      }
    }
    assert Slot(n + 1) == Slot(n) + STRIDE;
    forall j | Slot(n + 1) <= j < |t| ensures t[j] == 0 {
      assert t[j] == t[DIR_HEADER..][j - DIR_HEADER] == u[DIR_HEADER..][j - DIR_HEADER] == u[j] == s[j];
    }
  }

  lemma SameWord(t: seq<Byte>, u: seq<Byte>, p: nat)
    requires |t| == |u| && DIR_HEADER <= p && p + 4 <= |t| && t[DIR_HEADER..] == u[DIR_HEADER..]
    ensures Word(t, p) == Word(u, p)
  {
    assert t[p..p + 4] == t[DIR_HEADER..][p - DIR_HEADER..p - DIR_HEADER + 4];
    assert u[p..p + 4] == u[DIR_HEADER..][p - DIR_HEADER..p - DIR_HEADER + 4];
  }

  // Only the link changes.
  lemma DirLinks(s: seq<Byte>, next: Sector, kids: seq<nat>, t: seq<Byte>, next': Sector)
    requires DirBytes(s, next, kids) && |t| == |s| && t[DIR_HEADER..] == s[DIR_HEADER..]
    requires DirHeaderIs(t, DirHeader(next', |kids|))
    ensures DirBytes(t, next', kids)
  {
    hide Dec;
    forall i | 0 <= i < |kids| ensures SlotIs(t, i, kids[i]) {
      assert SlotIs(s, i, kids[i]);
      SameWord(t, s, Slot(i));
      SameWord(t, s, Slot(i) + 4);
    }
    forall j | Slot(|kids|) <= j < |t| ensures t[j] == 0 {
      assert t[j] == t[DIR_HEADER..][j - DIR_HEADER] == s[DIR_HEADER..][j - DIR_HEADER] == s[j];
    }
  }

  // A sector that was never used holds an empty block as soon as it has a header.
  lemma DirFresh(s: seq<Byte>, t: seq<Byte>)
    requires ZeroFrom(s, 0) && |t| == |s| && DirHeaderIs(t, DirHeader(0, 0)) && t[DIR_HEADER..] == s[DIR_HEADER..]
    ensures DirBytes(t, 0, [])
  {
    forall j | DIR_HEADER <= j < |t| ensures t[j] == 0 {
      assert t[j] == t[DIR_HEADER..][j - DIR_HEADER] == s[DIR_HEADER..][j - DIR_HEADER] == s[j];
    }
  }

  // spfs_make_dir_block
  method MakeDirBlock(buf: Buffer, h: DirHeader)
    requires buf.data.Length >= DIR_HEADER && h.next < TWO_32 && h.children < TWO_32
    modifies buf.data
    ensures DirHeaderIs(buf.Bytes(), h) && buf.Bytes()[DIR_HEADER..] == old(buf.Bytes())[DIR_HEADER..]
  {
    hide Word, Splice, Buffer.Bytes, Enc;
    var ok, pos;
    ghost var s := buf.Bytes();
    ok, pos := PutField(buf, 0, DIR_MAGIC, s, DIR_HEADER);
    ok, pos := PutField(buf, pos, h.next, s, DIR_HEADER);
    ok, pos := PutField(buf, pos, h.children, s, DIR_HEADER);
  }

  // spfs_parse_dir_block
  method ParseDirBlock(buf: Buffer) returns (ok: bool, pos: nat, h: DirHeader)
    requires buf.data.Length >= DIR_HEADER
    ensures ok == (Word(buf.Bytes(), 0) == DIR_MAGIC)
    ensures ok ==> pos == DIR_HEADER && DirHeaderIs(buf.Bytes(), h)
  {
    hide Word;
    var magic, next, children;
    ok, pos, magic := buf.ReadU32(0);
    ok, pos, next := buf.ReadWide(pos);
    ok, pos, children := buf.ReadU32(pos);
    return magic == DIR_MAGIC, pos, DirHeader(next, children);
  }

  // spfs_dir_write_child
  method DirWriteChild(buf: Buffer, start: nat, idx: nat, child: nat) returns (ok: bool)
    requires start + idx * STRIDE <= buf.data.Length
    modifies buf.data
    ensures ok == (start + idx * STRIDE + STRIDE <= buf.data.Length)
    ensures buf.Bytes() == if ok then Splice(old(buf.Bytes()), start + idx * STRIDE, Enc(child)) else old(buf.Bytes())
  {
    hide Splice, Buffer.Bytes, Enc;
    var offset := start + idx * STRIDE;
    if buf.Remaining(offset) < STRIDE {
      return false;
    }
    var next;
    ok, next := buf.WriteU32(offset, child);
  }

  // A block in place.
  datatype DirBlk = DirBlk(sec: Sector, kids: seq<nat>)

  ghost predicate BlkAt(b: map<Sector, Block>, d: DirBlk, next: Sector, bs: nat) {
    && 0 < d.sec < TWO_32 && d.sec in b && b[d.sec].Raw? && |b[d.sec].bytes| == bs && |d.kids| > 0
    && DirBytes(b[d.sec].bytes, next, d.kids)
  }

  function SecAt(c: seq<DirBlk>, k: nat): Sector {
    if k < |c| then c[k].sec else 0
  }

  // The linked blocks of a directory: all before the last are full.
  ghost predicate DirAt(b: map<Sector, Block>, c: seq<DirBlk>, bs: nat) {
    && (forall k :: 0 <= k < |c| ==> BlkAt(b, c[k], SecAt(c, k + 1), bs))
    && (forall k :: 0 <= k < |c| - 1 ==> |c[k].kids| == FULL)
    && (forall j, k :: 0 <= j < k < |c| ==> c[j].sec != c[k].sec)
  }

  function Kids(c: seq<DirBlk>): seq<nat> {
    if |c| == 0 then [] else c[0].kids + Kids(c[1..])
  }

  ghost function DirSecs(c: seq<DirBlk>): set<Sector> {
    set d <- c :: d.sec
  }

  lemma {:induction false} KidsAppend(c: seq<DirBlk>, d: seq<DirBlk>)
    ensures Kids(c + d) == Kids(c) + Kids(d)
  {
    if |c| == 0 {
      assert c + d == d;
    } else {
      assert (c + d)[1..] == c[1..] + d;
      KidsAppend(c[1..], d);
    }
  }

  lemma KidsNext(c: seq<DirBlk>, k: nat)
    requires k < |c|
    ensures Kids(c[..k + 1]) == Kids(c[..k]) + c[k].kids
  {
    hide Kids;
    assert c[..k + 1] == c[..k] + [c[k]];
    KidsAppend(c[..k], [c[k]]);
    KidsOne(c[k]);
  }

  lemma KidsOne(d: DirBlk)
    ensures Kids([d]) == d.kids
  {
    assert Kids([d][1..]) == [];
  }

  lemma DirSecsIn(c: seq<DirBlk>, k: nat)
    requires k < |c|
    ensures c[k].sec in DirSecs(c)
  {
  }

  // The last block takes one more child.
  ghost function Fuller(c: seq<DirBlk>, child: nat): seq<DirBlk>
    requires |c| > 0
  {
    var n := |c| - 1;
    c[n := DirBlk(c[n].sec, c[n].kids + [child])]
  }

  lemma FullerIs(c: seq<DirBlk>, child: nat)
    requires |c| > 0
    ensures var n := |c| - 1; Fuller(c, child) == c[n := DirBlk(c[n].sec, c[n].kids + [child])]
  {
  }

  lemma FullerKids(c: seq<DirBlk>, child: nat)
    requires |c| > 0
    ensures Kids(Fuller(c, child)) == Kids(c) + [child]
  {
    var n := |c| - 1;
    var c' := Fuller(c, child);
    hide Kids;
    KidsNext(c, n);
    KidsNext(c', n);
    assert c'[..n] == c[..n] && c[..n + 1] == c && c'[..n + 1] == c';
    Assoc3(Kids(c[..n]), c[n].kids, [child]);
  }

  lemma Assoc3<T>(a: seq<T>, b: seq<T>, c: seq<T>)
    ensures a + (b + c) == (a + b) + c
  {
  }

  lemma FullerSecs(c: seq<DirBlk>, child: nat)
    requires |c| > 0
    ensures DirSecs(Fuller(c, child)) == DirSecs(c)
    ensures forall k :: SecAt(Fuller(c, child), k) == SecAt(c, k)
  {
    var c' := Fuller(c, child);
    forall x ensures x in DirSecs(c') <==> x in DirSecs(c) {
      if x in DirSecs(c) { var k :| 0 <= k < |c| && c[k].sec == x; DirSecsIn(c', k); }
      if x in DirSecs(c') { var k :| 0 <= k < |c'| && c'[k].sec == x; DirSecsIn(c, k); }
    }
  }

  lemma DirPut(b: map<Sector, Block>, b': map<Sector, Block>, c: seq<DirBlk>, child: nat, bs: nat)
    requires |c| > 0 && DirAt(b, c, bs)
    requires var d := c[|c| - 1];
      d.sec in b' && b' == b[d.sec := b'[d.sec]] && BlkAt(b', DirBlk(d.sec, d.kids + [child]), 0, bs)
    ensures var c' := Fuller(c, child);
      DirAt(b', c', bs) && Kids(c') == Kids(c) + [child] && DirSecs(c') == DirSecs(c) && SecAt(c', 0) == SecAt(c, 0)
  {
    hide BlkAt, Kids, DirSecs, SecAt, Fuller;
    var n := |c| - 1;
    assert Fuller(c, child) == c[n := DirBlk(c[n].sec, c[n].kids + [child])] by { FullerIs(c, child); }
    FullerKids(c, child);
    FullerSecs(c, child);
    forall k | 0 <= k < n ensures BlkAt(b', c[k], SecAt(c, k + 1), bs) {
      BlkKept(b, b', c[k], SecAt(c, k + 1), bs);
    }
    assert SecAt(c, n + 1) == 0 by { SecEnd(c); }
  }

  lemma SecEnd(c: seq<DirBlk>)
    ensures SecAt(c, |c|) == 0
  {
  }

  lemma BlkKept(b: map<Sector, Block>, b': map<Sector, Block>, d: DirBlk, next: Sector, bs: nat)
    requires BlkAt(b, d, next, bs) && (d.sec in b ==> d.sec in b' && b'[d.sec] == b[d.sec])
    ensures BlkAt(b', d, next, bs)
  {
  }

  // One block of a directory in place.
  lemma BlkOf(b: map<Sector, Block>, c: seq<DirBlk>, k: nat, bs: nat)
    requires DirAt(b, c, bs)
    ensures SecAt(c, |c|) == 0
    ensures k < |c| ==>
      && BlkAt(b, c[k], SecAt(c, k + 1), bs) && SecAt(c, k) == c[k].sec != 0 && c[k].sec in DirSecs(c)
      && c[k].sec in b && b[c[k].sec].Raw? && |b[c[k].sec].bytes| == bs && 0 < |c[k].kids| <= FULL
      && DirBytes(b[c[k].sec].bytes, SecAt(c, k + 1), c[k].kids) && (k < |c| - 1 ==> |c[k].kids| == FULL)
  {
    hide DirHeaderIs, SlotIs, ZeroFrom;
    if k < |c| {
      assert BlkAt(b, c[k], SecAt(c, k + 1), bs);
      DirSecsIn(c, k);
    }
  }

  // A new block behind the full ones.
  lemma DirGrow(b: map<Sector, Block>, b': map<Sector, Block>, c: seq<DirBlk>, d: DirBlk, bs: nat)
    requires DirAt(b, c, bs) && d.sec !in DirSecs(c) && BlkAt(b', d, 0, bs)
    requires |c| > 0 ==> |c[|c| - 1].kids| == FULL && BlkAt(b', c[|c| - 1], d.sec, bs)
    requires forall k :: 0 <= k < |c| - 1 ==> c[k].sec in b && c[k].sec in b' && b'[c[k].sec] == b[c[k].sec]
    ensures var c' := c + [d];
      DirAt(b', c', bs) && Kids(c') == Kids(c) + d.kids && DirSecs(c') == DirSecs(c) + {d.sec}
      && SecAt(c', 0) == if |c| == 0 then d.sec else SecAt(c, 0)
  {
    hide BlkAt, Kids, DirSecs;
    var c' := c + [d];
    forall k | 0 <= k < |c'| ensures BlkAt(b', c'[k], SecAt(c', k + 1), bs) {
      if k < |c| - 1 { BlkKept(b, b', c[k], SecAt(c, k + 1), bs); }
    }
    forall j | 0 <= j < |c| ensures c[j].sec != d.sec { DirSecsIn(c, j); }
    KidsAppend(c, [d]);
    KidsOne(d);
    SecsMore(c, d);
  }

  lemma SecsMore(c: seq<DirBlk>, d: DirBlk)
    ensures DirSecs(c + [d]) == DirSecs(c) + {d.sec}
  {
    var c' := c + [d];
    forall x ensures x in DirSecs(c') <==> x in DirSecs(c) + {d.sec} {
      if x in DirSecs(c) { var k :| 0 <= k < |c| && c[k].sec == x; assert c'[k].sec == x; DirSecsIn(c', k); }
      if x == d.sec { assert c'[|c|] == d; DirSecsIn(c', |c|); }
    }
  }

  // Child count put up by one and the child written into its slot.
  method PutChild(bh: Buffer, d: DirHeader, child: nat, ghost kids: seq<nat>)
    requires bh.data.Length >= ROOMY && 0 < child < TWO_32 && d.next < TWO_32
    requires DirBytes(bh.Bytes(), d.next, kids) && d.children == |kids| < FULL
    modifies bh.data
    ensures DirBytes(bh.Bytes(), d.next, kids + [child])
  {
    hide Word, Splice, Buffer.Bytes, Enc, DirBytes;
    ghost var s := bh.Bytes();
    assert Slot(|kids|) + STRIDE <= ROOMY;
    var res := DirWriteChild(bh, DIR_HEADER, d.children, child);
    MakeDirBlock(bh, DirHeader(d.next, d.children + 1));
    DirGrows(s, d.next, kids, child, bh.Bytes());
  }

  lemma DirHeaderOf(s: seq<Byte>, d: DirHeader, next: Sector, kids: seq<nat>)
    requires DirBytes(s, next, kids)
    ensures Word(s, 0) == DIR_MAGIC && next < TWO_32 && |kids| <= FULL
    ensures DirHeaderIs(s, d) ==> d == DirHeader(next, |kids|)
  {
  }

  lemma RawRefl(b: map<Sector, Block>)
    ensures RawOnly(b, b)
  {
  }

  // Room in the last block shows in the number of children.
  lemma {:induction false} KidsLen(b: map<Sector, Block>, c: seq<DirBlk>, bs: nat)
    requires DirAt(b, c, bs)
    ensures |c| > 0 ==> |Kids(c)| == (|c| - 1) * FULL + |c[|c| - 1].kids|
    ensures |Kids(c)| % FULL != 0 <==> |c| > 0 && |c[|c| - 1].kids| < FULL
  {
    hide DirBytes;
    if |c| > 0 {
      assert BlkAt(b, c[|c| - 1], SecAt(c, |c|), bs);
      FullKids(c, |c| - 1);
      KidsNext(c, |c| - 1);
      assert c[..|c| - 1 + 1] == c;
      LastLen(|c| - 1, |c[|c| - 1].kids|);
      DirBytesLen(b, c, bs);
    }
  }

  lemma DirBytesLen(b: map<Sector, Block>, c: seq<DirBlk>, bs: nat)
    requires DirAt(b, c, bs) && |c| > 0
    ensures 0 < |c[|c| - 1].kids| <= FULL
  {
    assert BlkAt(b, c[|c| - 1], SecAt(c, |c|), bs);
  }

  lemma LastLen(n: nat, k: nat)
    ensures 0 < k <= FULL ==> ((n * FULL + k) % FULL != 0 <==> k < FULL)
  {
  }

  lemma {:induction false} FullKids(c: seq<DirBlk>, n: nat)
    requires n <= |c| && forall k :: 0 <= k < n ==> |c[k].kids| == FULL
    ensures |Kids(c[..n])| == n * FULL
  {
    if n > 0 {
      FullKids(c, n - 1);
      KidsNext(c, n - 1);
    }
  }

  // A fresh sector becomes a block with one child.
  method MakeBlock(sb: SuperBlock, page: Sector, child: nat)
    requires sb.Valid() && sb.disk.bs >= ROOMY && 0 < child < TWO_32 && page !in sb.free.Avail()
    requires 0 < page < TWO_32 && page in sb.disk.blocks && sb.disk.blocks[page] == Raw(Zeros(sb.disk.bs))
    modifies sb.disk
    ensures sb.Valid() && sb.tree.Index() == old(sb.tree.Index())
    ensures page in sb.disk.blocks && sb.disk.blocks == old(sb.disk.blocks)[page := sb.disk.blocks[page]]
    ensures BlkAt(sb.disk.blocks, DirBlk(page, [child]), 0, sb.disk.bs)
  {
    hide FreeList.Avail, BTree.Valid, BTree.Index, Clean, Small, DirBytes, Word, Buffer.Bytes;
    var bh := new Buffer.Read(sb.disk.blocks[page].bytes);
    ghost var s := bh.Bytes();
    MakeDirBlock(bh, DirHeader(0, 0));
    DirFresh(s, bh.Bytes());
    PutChild(bh, DirHeader(0, 0), child, []);
    assert [] + [child] == [child];
    sb.WriteBack(page, bh);
  }

  // A block with room takes a child.
  method FillBlock(sb: SuperBlock, found: Sector, child: nat, ghost e: DirBlk, ghost next: Sector)
    requires sb.Valid() && sb.disk.bs >= ROOMY && 0 < child < TWO_32 && found == e.sec && found !in sb.free.Avail()
    requires BlkAt(sb.disk.blocks, e, next, sb.disk.bs) && |e.kids| < FULL
    modifies sb.disk
    ensures sb.Valid() && sb.tree.Index() == old(sb.tree.Index())
    ensures found in sb.disk.blocks && sb.disk.blocks == old(sb.disk.blocks)[found := sb.disk.blocks[found]]
    ensures BlkAt(sb.disk.blocks, DirBlk(e.sec, e.kids + [child]), next, sb.disk.bs)
  {
    hide FreeList.Avail, BTree.Valid, BTree.Index, Clean, Small, DirBytes, Word, Buffer.Bytes;
    var bh := new Buffer.Read(sb.disk.blocks[found].bytes);
    var ok, pos, d := ParseDirBlock(bh);
    DirHeaderOf(bh.Bytes(), d, next, e.kids);
    PutChild(bh, d, child, e.kids);
    sb.WriteBack(found, bh);
  }

  // A block names its new successor.
  method LinkBlock(sb: SuperBlock, prev: Sector, page: Sector, ghost e: DirBlk, ghost next: Sector)
    requires sb.Valid() && sb.disk.bs >= ROOMY && page < TWO_32 && prev == e.sec && prev !in sb.free.Avail()
    requires BlkAt(sb.disk.blocks, e, next, sb.disk.bs)
    modifies sb.disk
    ensures sb.Valid() && sb.tree.Index() == old(sb.tree.Index())
    ensures prev in sb.disk.blocks && sb.disk.blocks == old(sb.disk.blocks)[prev := sb.disk.blocks[prev]]
    ensures BlkAt(sb.disk.blocks, e, page, sb.disk.bs)
  {
    hide FreeList.Avail, BTree.Valid, BTree.Index, Clean, Small, DirBytes, Word, Buffer.Bytes;
    var bh := new Buffer.Read(sb.disk.blocks[prev].bytes);
    var ok, pos, h := ParseDirBlock(bh);
    ghost var t := bh.Bytes();
    DirHeaderOf(t, h, next, e.kids);
    MakeDirBlock(bh, h.(next := page));
    DirLinks(t, next, e.kids, bh.Bytes(), page);
    sb.WriteBack(prev, bh);
  }

  lemma RawPut(b: map<Sector, Block>, b': map<Sector, Block>, e: DirBlk, next: Sector, bs: nat)
    requires e.sec in b && b[e.sec].Raw? && e.sec in b' && b' == b[e.sec := b'[e.sec]] && BlkAt(b', e, next, bs)
    ensures RawOnly(b, b') && b'.Keys == b.Keys
  {
  }

  lemma RawTrans(b: map<Sector, Block>, b1: map<Sector, Block>, b2: map<Sector, Block>)
    requires RawOnly(b, b1) && RawOnly(b1, b2)
    ensures RawOnly(b, b2)
  {
  }

  // What the walk over the children does to the state of its callback: it stops as soon as the
  // callback refuses.
  function Walk<S>(f: (S, Inode) -> (S, bool), s: S, xs: seq<Inode>): (S, bool) {
    if |xs| == 0 then (s, true) else
      var (t, more) := f(s, xs[0]);
      if more then Walk(f, t, xs[1..]) else (t, false)
  }

  lemma {:induction false} WalkAppend<S>(f: (S, Inode) -> (S, bool), s: S, xs: seq<Inode>, ys: seq<Inode>)
    ensures Walk(f, s, xs + ys) == if Walk(f, s, xs).1 then Walk(f, Walk(f, s, xs).0, ys) else Walk(f, s, xs)
    decreases |xs|
  {
    if |xs| == 0 {
      assert xs + ys == ys;
    } else {
      assert (xs + ys)[1..] == xs[1..] + ys;
      var (t, more) := f(s, xs[0]);
      if more { WalkAppend(f, t, xs[1..], ys); }
    }
  }

  // The inodes behind a list of numbers.
  function Resolve(m: map<nat, Inode>, kids: seq<nat>): (xs: seq<Inode>)
    requires forall i :: 0 <= i < |kids| ==> kids[i] in m
    ensures |xs| == |kids| && forall i :: 0 <= i < |kids| ==> xs[i] == m[kids[i]]
  {
    seq(|kids|, i requires 0 <= i < |kids| => m[kids[i]])
  }

  ghost predicate Known(m: map<nat, Inode>, kids: seq<nat>) {
    forall i :: 0 <= i < |kids| ==> kids[i] in m
  }

  lemma WalkNext<S>(f: (S, Inode) -> (S, bool), s: S, m: map<nat, Inode>, kids: seq<nat>, i: nat)
    requires Known(m, kids) && i < |kids|
    ensures var r := f(s, m[kids[i]]);
      Walk(f, s, Resolve(m, kids[i..])) == if r.1 then Walk(f, r.0, Resolve(m, kids[i + 1..])) else r
  {
    assert Resolve(m, kids[i..])[1..] == Resolve(m, kids[i + 1..]);
  }

  lemma WalkEnd<S>(f: (S, Inode) -> (S, bool), s: S, m: map<nat, Inode>, kids: seq<nat>)
    requires Known(m, kids)
    ensures Walk(f, s, Resolve(m, kids[|kids|..])) == (s, true) && kids[0..] == kids
  {
  }

  // The reader steps over words: a child at an even step, an empty gap at an odd one.
  lemma SlotWord(s: seq<Byte>, next: Sector, kids: seq<nat>, i: nat, pos: nat)
    requires DirBytes(s, next, kids) && i < |kids| && |s| >= ROOMY
    requires pos == Slot(i) || (pos + 4 == Slot(i) && i > 0)
    ensures pos + 8 <= |s| && Word(s, pos) == if pos == Slot(i) then kids[i] else 0
    ensures kids[i] != 0
  {
    assert SlotIs(s, i, kids[i]);
    if pos != Slot(i) {
      assert SlotIs(s, i - 1, kids[i - 1]);
      assert Slot(i) == Slot(i - 1) + STRIDE;
    }
  }

  // The children of one block, read back.
  method WalkBlock<S>(sb: SuperBlock, bh: Buffer, at: nat, children: nat, f: (S, Inode) -> (S, bool), s0: S,
                      ghost kids: seq<nat>, ghost next: Sector)
    returns (ok: bool, more: bool, s: S)
    requires sb.Valid() && DirBytes(bh.Bytes(), next, kids) && bh.data.Length >= ROOMY && at == DIR_HEADER
    requires children == |kids|
    requires Known(sb.tree.Index(), kids)
    modifies sb.disk
    ensures sb.Valid() && sb.disk.blocks == old(sb.disk.blocks) && sb.tree.Index() == old(sb.tree.Index())
    ensures ok && (s, more) == Walk(f, s0, Resolve(sb.tree.Index(), kids))
  {
    hide FreeList.Avail, FreeList.Valid, BTree.Valid, BTree.Index, Clean, Small, DirBytes, Word, Buffer.Bytes, Walk,
      Resolve;
    ghost var m := sb.tree.Index();
    WalkEnd(f, s0, m, kids);
    s, more := s0, true;
    var i, pos := 0, at;
    while i < children
      invariant i <= children && sb.Valid() && sb.disk.blocks == old(sb.disk.blocks) && sb.tree.Index() == m
      invariant i < children ==> pos == Slot(i) || (pos + 4 == Slot(i) && i > 0)
      invariant Walk(f, s, Resolve(m, kids[i..])) == Walk(f, s0, Resolve(m, kids))
      decreases bh.data.Length - pos
    {
      SlotWord(bh.Bytes(), next, kids, i, pos);
      var cur;
      ok, pos, cur := bh.ReadWide(pos);
      if !ok {
        return;
      }
      if cur != 0 {
        var res, child := sb.tree.SpfsLookup(cur);
        WalkNext(f, s, m, kids, i);
        if child.Some? {
          var r := f(s, child.value);
          s, more := r.0, r.1;
          if !more {
            return;
          }
        }
        i := i + 1;
      }
    }
    WalkEnd(f, s, m, kids);
    return true, true, s;
  }

  // struct spfs_inode of a directory.
  class SpDirectory {
    const ino: nat
    var start: Sector
    var capacity: nat
    ghost var blocks: seq<DirBlk>

    constructor (ino: nat)
      ensures this.ino == ino && start == 0 && capacity == 0 && blocks == []
    {
      this.ino, start, capacity, blocks := ino, 0, 0, [];
    }

    // A directory read from its inode block.
    constructor Load(ino: nat, start: Sector, capacity: nat, ghost blocks: seq<DirBlk>)
      ensures this.ino == ino && this.start == start && this.capacity == capacity && this.blocks == blocks
    {
      this.ino, this.start, this.capacity, this.blocks := ino, start, capacity, blocks;
    }

    ghost predicate Valid(sb: SuperBlock)
      reads this, sb.disk, sb.free, sb.free.spine
    {
      && DirAt(sb.disk.blocks, blocks, sb.disk.bs) && start == SecAt(blocks, 0)
      && DirSecs(blocks) !! sb.free.Avail() && |Kids(blocks)| <= capacity
    }

    // The children in the order they were added.
    ghost function Children(): seq<nat>
      reads this
    {
      Kids(blocks)
    }

    // The walk over the blocks to the first with room; prev is the last one seen before.
    method FindRoom(sb: SuperBlock) returns (found: Sector, prev: Sector)
      requires sb.Valid() && Valid(sb) && sb.disk.bs >= ROOMY
      ensures found != 0 ==> |blocks| > 0 && found == blocks[|blocks| - 1].sec && |blocks[|blocks| - 1].kids| < FULL
      ensures found == 0 ==> |blocks| > 0 ==> |blocks[|blocks| - 1].kids| == FULL
      ensures found == 0 ==> prev == if |blocks| == 0 then 0 else blocks[|blocks| - 1].sec
    {
      hide FreeList.Avail, SuperBlock.Valid, Word, Buffer.Bytes, Kids, DirAt, DirSecs, DirBytes, SecAt;
      found, prev := start, 0;
      BlkOf(sb.disk.blocks, blocks, 0, sb.disk.bs);
      ghost var i := 0;
      while found != 0
        invariant i <= |blocks| && found == SecAt(blocks, i) && prev == (if i == 0 then 0 else blocks[i - 1].sec)
        invariant i > 0 ==> |blocks[i - 1].kids| == FULL
        decreases |blocks| - i
      {
        BlkOf(sb.disk.blocks, blocks, i, sb.disk.bs);
        var bh := new Buffer.Read(sb.disk.blocks[found].bytes);
        var ok, pos, d := ParseDirBlock(bh);
        DirHeaderOf(bh.Bytes(), d, SecAt(blocks, i + 1), blocks[i].kids);
        if d.children != FULL {
          return;
        }
        prev, found := found, d.next;
        i := i + 1;
      }
      BlkOf(sb.disk.blocks, blocks, i, sb.disk.bs);
    }

    // spfs_add_child; a new block is linked behind the last full one.
    method AddChild(sb: SuperBlock, child: nat) returns (ok: bool)
      requires sb.Valid() && Valid(sb) && sb.disk.bs >= ROOMY && 0 < child < TWO_32
      modifies `start, `capacity, `blocks, sb.disk, sb.free`blocks, sb.free.spine
      ensures sb.Valid() && Valid(sb) && sb.tree.Index() == old(sb.tree.Index()) && capacity == old(capacity) + 1
      ensures ok <==> |old(Children())| % FULL != 0 || old(sb.free.blocks) > 1
      ensures Children() == if ok then old(Children()) + [child] else old(Children())
      ensures !ok ==>
        sb.disk.blocks == old(sb.disk.blocks) && sb.free.Avail() == old(sb.free.Avail()) && start == old(start)
      ensures Touched(old(sb.disk.blocks), sb.disk.blocks, old(sb.free.Avail()), sb.free.Avail(), DirSecs(old(blocks)))
      ensures RawOnly(old(sb.disk.blocks), sb.disk.blocks)
      ensures DirSecs(blocks) <= DirSecs(old(blocks)) + old(sb.free.Avail())
      ensures DirSecs(blocks) + sb.free.Avail() == DirSecs(old(blocks)) + old(sb.free.Avail())
      ensures sb.free.Exts() ==
        if |old(Children())| % FULL != 0 then old(sb.free.Exts()) else Carve(old(sb.free.Exts()), 1).1
      ensures sb.free.blocks == old(sb.free.blocks) - if ok && |old(Children())| % FULL == 0 then 1 else 0
      ensures old(start) != 0 ==> start == old(start)
    {
      hide FreeList.Avail, FreeList.Valid, FreeList.Exts, BTree.Valid, BTree.Index, Clean, Small, Kids, DirSecs, DirAt,
        RawOnly, Fuller, Zeros, BlkAt, Allocated, Carve;
      ghost var b0, av0, bs, exts0 := sb.disk.blocks, sb.free.Avail(), sb.disk.bs, sb.free.Exts();
      capacity := capacity + 1;
      TouchedRefl(b0, av0);
      RawRefl(b0);
      KidsLen(b0, blocks, bs);
      var found, prev := FindRoom(sb);
      if found != 0 {
        InLast(sb, found, child);
        return true;
      }
      found := sb.AllocSector();
      AllocatedOnce(exts0, 1, found, sb.free.Exts());
      ok := found != 0;
      if ok {
        BehindLast(sb, found, prev, child, av0);
      }
    }

    // The last block has room.
    method InLast(sb: SuperBlock, found: Sector, child: nat)
      requires sb.Valid() && Valid(sb) && sb.disk.bs >= ROOMY && 0 < child < TWO_32
      requires |blocks| > 0 && found == blocks[|blocks| - 1].sec && |blocks[|blocks| - 1].kids| < FULL
      requires |Children()| < capacity
      modifies `blocks, sb.disk
      ensures sb.Valid() && Valid(sb) && sb.tree.Index() == old(sb.tree.Index())
      ensures Children() == old(Children()) + [child]
      ensures Touched(old(sb.disk.blocks), sb.disk.blocks, sb.free.Avail(), sb.free.Avail(), DirSecs(old(blocks)))
      ensures RawOnly(old(sb.disk.blocks), sb.disk.blocks) && DirSecs(blocks) == DirSecs(old(blocks))
    {
      hide FreeList.Avail, SuperBlock.Valid, BTree.Index, Kids, DirSecs, DirBytes, Fuller, RawOnly, DirAt, SecAt, BlkAt;
      ghost var b0, bs, n, c := sb.disk.blocks, sb.disk.bs, |blocks| - 1, blocks;
      ghost var e := blocks[n];
      BlkOf(b0, c, n, bs);
      FillBlock(sb, found, child, e, SecAt(c, n + 1));
      RawPut(b0, sb.disk.blocks, DirBlk(e.sec, e.kids + [child]), SecAt(c, n + 1), bs);
      DirPut(b0, sb.disk.blocks, c, child, bs);
      blocks := Fuller(c, child);
    }

    // All blocks are full: a fresh one goes behind them.
    method BehindLast(sb: SuperBlock, page: Sector, prev: Sector, child: nat, ghost av0: set<Sector>)
      requires sb.Valid() && Valid(sb) && sb.disk.bs >= ROOMY && 0 < child < TWO_32 && |Children()| < capacity
      requires 0 < page < TWO_32 && page in sb.disk.blocks && sb.disk.blocks[page] == Raw(Zeros(sb.disk.bs))
      requires page in av0 && page !in sb.free.Avail() && DirSecs(blocks) !! av0
      requires prev == if |blocks| == 0 then 0 else blocks[|blocks| - 1].sec
      requires |blocks| > 0 ==> |blocks[|blocks| - 1].kids| == FULL
      modifies `start, `blocks, sb.disk
      ensures sb.Valid() && Valid(sb) && sb.tree.Index() == old(sb.tree.Index())
      ensures Children() == old(Children()) + [child] && (old(start) != 0 ==> start == old(start))
      ensures sb.disk.blocks.Keys == old(sb.disk.blocks).Keys
      ensures forall x :: x in old(sb.disk.blocks) && x != page && x !in DirSecs(old(blocks)) ==>
        sb.disk.blocks[x] == old(sb.disk.blocks)[x]
      ensures RawOnly(old(sb.disk.blocks), sb.disk.blocks) && DirSecs(blocks) == DirSecs(old(blocks)) + {page}
    {
      hide FreeList.Avail, FreeList.Valid, BTree.Valid, BTree.Index, Clean, Small, Kids, DirSecs, DirBytes, RawOnly,
        Zeros;
      ghost var b0, bs, n, c := sb.disk.blocks, sb.disk.bs, |blocks| - 1, blocks;
      ghost var d := DirBlk(page, [child]);
      MakeBlock(sb, page, child);
      ghost var b1 := sb.disk.blocks;
      RawPut(b0, b1, d, 0, bs);
      if prev == 0 {
        start := page;
        RawRefl(b1);
      } else {
        DirSecsIn(c, n);
        BlkKept(b0, b1, c[n], SecAt(c, n + 1), bs);
        LinkBlock(sb, prev, page, c[n], SecAt(c, n + 1));
        RawPut(b1, sb.disk.blocks, c[n], page, bs);
        BlkKept(b1, sb.disk.blocks, d, 0, bs);
      }
      RawTrans(b0, b1, sb.disk.blocks);
      assert forall k :: 0 <= k < n ==> c[k].sec in b0 by {
        assert forall k :: 0 <= k < |c| ==> BlkAt(b0, c[k], SecAt(c, k + 1), bs);
      }
      assert forall k :: 0 <= k < n ==> c[k].sec in DirSecs(c) by {
        forall k | 0 <= k < n ensures c[k].sec in DirSecs(c) { DirSecsIn(c, k); }
      }
      DirGrow(b0, sb.disk.blocks, c, d, bs);
      blocks := c + [d];
    }

    // spfs_for_all_children
    method ForAllChildren<S>(sb: SuperBlock, f: (S, Inode) -> (S, bool), s0: S) returns (ok: bool, s: S)
      requires sb.Valid() && Valid(sb) && sb.disk.bs >= ROOMY && Known(sb.tree.Index(), Children())
      modifies sb.disk
      ensures sb.Valid() && Valid(sb) && sb.disk.blocks == old(sb.disk.blocks)
      ensures sb.tree.Index() == old(sb.tree.Index())
      ensures ok && s == Walk(f, s0, Resolve(sb.tree.Index(), Children())).0
    {
      hide FreeList.Avail, FreeList.Valid, BTree.Valid, BTree.Index, Clean, Small, DirBytes, Word, Buffer.Bytes, Walk,
        Resolve, DirSecs, Kids, DirAt, BlkAt, SecAt;
      ghost var m, i, b, bs := sb.tree.Index(), 0, sb.disk.blocks, sb.disk.bs;
      var cur, more := start, true;
      s := s0;
      KidsFrom(blocks, m);
      BlkOf(b, blocks, 0, bs);
      while cur != 0
        invariant i <= |blocks| && cur == SecAt(blocks, i) && sb.Valid() && sb.disk.blocks == b && sb.tree.Index() == m
        invariant Known(m, Kids(blocks[i..]))
        invariant Walk(f, s, Resolve(m, Kids(blocks[i..]))) == Walk(f, s0, Resolve(m, Kids(blocks)))
        decreases |blocks| - i
      {
        BlkOf(b, blocks, i, bs);
        var bh := new Buffer.Read(sb.disk.blocks[cur].bytes);
        var pos, d;
        ok, pos, d := ParseDirBlock(bh);
        DirHeaderOf(bh.Bytes(), d, SecAt(blocks, i + 1), blocks[i].kids);
        WalkKids(f, s, m, blocks, i);
        ok, more, s := WalkBlock(sb, bh, pos, d.children, f, s, blocks[i].kids, d.next);
        if !more {
          return;
        }
        cur := d.next;
        i := i + 1;
      }
      BlkOf(b, blocks, i, bs);
      WalkDone(f, s, m, blocks);
      return true, s;
    }
  }

  lemma KidsFrom(c: seq<DirBlk>, m: map<nat, Inode>)
    requires Known(m, Kids(c))
    ensures c[0..] == c && Known(m, Kids(c[0..]))
  {
    assert c[0..] == c;
  }

  lemma KidsDrop(c: seq<DirBlk>, i: nat)
    requires i < |c|
    ensures Kids(c[i..]) == c[i].kids + Kids(c[i + 1..])
  {
    assert c[i..][1..] == c[i + 1..];
  }

  lemma ResolveAppend(m: map<nat, Inode>, k: seq<nat>, z: seq<nat>)
    requires Known(m, k + z)
    ensures Known(m, k) && Known(m, z) && Resolve(m, k + z) == Resolve(m, k) + Resolve(m, z)
  {
    assert forall j :: 0 <= j < |k| ==> k[j] == (k + z)[j];
    assert forall j :: 0 <= j < |z| ==> z[j] == (k + z)[|k| + j];
  }

  lemma WalkKids<S>(f: (S, Inode) -> (S, bool), s: S, m: map<nat, Inode>, c: seq<DirBlk>, i: nat)
    requires i < |c| && Known(m, Kids(c[i..]))
    ensures Known(m, c[i].kids) && Known(m, Kids(c[i + 1..]))
    ensures var r := Walk(f, s, Resolve(m, c[i].kids));
      Walk(f, s, Resolve(m, Kids(c[i..]))) == if r.1 then Walk(f, r.0, Resolve(m, Kids(c[i + 1..]))) else r
  {
    hide Walk, Resolve, Kids;
    var k, z := c[i].kids, Kids(c[i + 1..]);
    KidsDrop(c, i);
    ResolveAppend(m, k, z);
    WalkAppend(f, s, Resolve(m, k), Resolve(m, z));
  }

  lemma WalkDone<S>(f: (S, Inode) -> (S, bool), s: S, m: map<nat, Inode>, c: seq<DirBlk>)
    ensures Walk(f, s, Resolve(m, Kids(c[|c|..]))) == (s, true)
  {
  }
}
