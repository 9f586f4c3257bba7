// One extent of a file: a run of sectors with a 16-byte header at its front (sp.c).

module Extents {
  import opened Entries
  import opened Disks
  import opened Words
  import opened Streams

  const MAGIC := 0xDEAD_BEEF
  const HEADER_SIZE := 16

  // struct spfs_file_extent; next is 0 at the end of a file.
  datatype Header = Header(next: Sector, capacity: nat, length: nat)

  // An extent in place: where it starts, how many sectors it has, how many bytes are in use.
  datatype Ext = Ext(start: Sector, blocks: nat, length: nat)

  ghost function Sec(b: map<Sector, Block>, x: Sector): seq<Byte> {
    if x in b && b[x].Raw? then b[x].bytes else []
  }

  ghost predicate Sized(b: map<Sector, Block>, x: Sector, n: nat, bs: nat) {
    forall y :: x <= y < x + n ==> y in b && b[y].Raw? && |b[y].bytes| == bs
  }

  ghost function Sectors(b: map<Sector, Block>, x: Sector, n: nat): seq<Byte> {
    if n == 0 then [] else Sectors(b, x, n - 1) + Sec(b, x + n - 1)
  }

  lemma {:induction false} SectorsSize(b: map<Sector, Block>, x: Sector, n: nat, bs: nat)
    requires Sized(b, x, n, bs)
    ensures |Sectors(b, x, n)| == n * bs
  {
    if n > 0 {
      SectorsSize(b, x, n - 1, bs);
      assert n * bs == (n - 1) * bs + bs;
    }
  }

  lemma {:induction false} SectorsFirst(b: map<Sector, Block>, x: Sector, n: nat)
    requires n > 0
    ensures Sectors(b, x, n) == Sec(b, x) + Sectors(b, x + 1, n - 1)
  {
    if n == 1 {
      assert Sectors(b, x, 0) == [] && Sectors(b, x + 1, 0) == [];
    } else {
      SectorsFirst(b, x, n - 1);
    }
  }

  lemma {:induction false} SectorsSame(b: map<Sector, Block>, b': map<Sector, Block>, x: Sector, n: nat)
    requires forall y :: x <= y < x + n ==> Sec(b', y) == Sec(b, y)
    ensures Sectors(b', x, n) == Sectors(b, x, n)
  {
    if n > 0 {
      SectorsSame(b, b', x, n - 1);
    }
  }

  ghost predicate HeaderIs(s: seq<Byte>, h: Header) {
    && |s| >= HEADER_SIZE && Word(s, 0) == MAGIC
    && Word(s, 4) == h.next && Word(s, 8) == h.capacity && Word(s, 12) == h.length
  }

  // The header byte by byte.
  lemma HeaderBytes(s: seq<Byte>, h: Header)
    ensures HeaderIs(s, h) <==>
              && |s| >= 16 && s[..4] == [0xDE, 0xAD, 0xBE, 0xEF]
              && BigEndian(s, 4, h.next) && BigEndian(s, 8, h.capacity) && BigEndian(s, 12, h.length)
              && h.next < TWO_32 && h.capacity < TWO_32 && h.length < TWO_32
  {
    hide Word, BigEndian;
    if |s| >= 16 {
      MagicBytes(s);
      WordIff(s, 4, h.next);
      WordIff(s, 8, h.capacity);
      WordIff(s, 12, h.length);
    }
  }

  lemma WordPut(s: seq<Byte>, p: nat, v: nat)
    requires p + 4 <= |s| && v < TWO_32
    ensures Word(Splice(s, p, Enc(v)), p) == v
  {
    assert Splice(s, p, Enc(v))[p..p + 4] == Enc(v);
    DecEnc(v);
  }

  lemma WordKeep(s: seq<Byte>, p: nat, x: seq<Byte>, q: nat)
    requires p + |x| <= |s| && q + 4 <= |s| && (q + 4 <= p || p + |x| <= q)
    ensures Word(Splice(s, p, x), q) == Word(s, q)
  {
    assert Splice(s, p, x)[q..q + 4] == s[q..q + 4];
  }

  lemma TailKeep(s: seq<Byte>, p: nat, x: seq<Byte>, q: nat)
    requires p + |x| <= q <= |s|
    ensures Splice(s, p, x)[q..] == s[q..]
  {
  }

  // spfs_parse_file_extent
  method ParseFileExtent(buf: Buffer) returns (ok: bool, h: Header)
    requires buf.data.Length >= HEADER_SIZE
    ensures ok == (Word(buf.Bytes(), 0) == MAGIC)
    ensures ok ==> HeaderIs(buf.Bytes(), h)
  {
    hide Word;
    var magic, next, capacity, length, pos;
    ok, pos, magic := buf.ReadU32(0);
    ok, pos, next := buf.ReadWide(pos);
    ok, pos, capacity := buf.ReadU32(pos);
    ok, pos, length := buf.ReadU32(pos);
    return magic == MAGIC, Header(next, capacity, length);
  }

  // spfs_make_file_extent: the header is written over, the data behind it stays.
  method MakeFileExtent(buf: Buffer, h: Header)
    requires buf.data.Length >= HEADER_SIZE && h.next < TWO_32 && h.capacity < TWO_32 && h.length < TWO_32
    modifies buf.data
    ensures HeaderIs(buf.Bytes(), h)
    ensures buf.Bytes()[HEADER_SIZE..] == old(buf.Bytes())[HEADER_SIZE..]
  {
    hide Word, Splice, Buffer.Bytes, Enc;
    var ok, pos;
    ghost var s := buf.Bytes();
    ok, pos := PutField(buf, 0, MAGIC, s, HEADER_SIZE);
    ok, pos := PutField(buf, pos, h.next, s, HEADER_SIZE);
    ok, pos := PutField(buf, pos, h.capacity, s, HEADER_SIZE);
    ok, pos := PutField(buf, pos, h.length, s, HEADER_SIZE);
  }

  // One field of a header of hs bytes.
  method PutField(buf: Buffer, pos: nat, v: nat, ghost s: seq<Byte>, ghost hs: nat) returns (ok: bool, next: nat)
    requires pos + 4 <= hs <= buf.data.Length == |s| && v < TWO_32 && buf.Bytes()[hs..] == s[hs..]
    modifies buf.data
    ensures ok && next == pos + 4 && Word(buf.Bytes(), pos) == v
    ensures forall q :: 0 <= q && q + 4 <= pos ==> Word(buf.Bytes(), q) == Word(old(buf.Bytes()), q)
    ensures buf.Bytes()[hs..] == s[hs..]
  {
    hide Word, Splice, Buffer.Bytes, Enc;
    ghost var b := buf.Bytes();
    ok, next := buf.WriteU32(pos, v);
    WordPut(b, pos, v);
    forall q | 0 <= q && q + 4 <= pos ensures Word(buf.Bytes(), q) == Word(b, q) { WordKeep(b, pos, Enc(v), q); }
    TailKeep(b, pos, Enc(v), hs);
  }

  // The bytes of an extent behind its header, and how many there are.
  ghost function DataOf(b: map<Sector, Block>, e: Ext): seq<Byte> {
    var s := Sectors(b, e.start, e.blocks);
    if |s| < HEADER_SIZE then [] else s[HEADER_SIZE..]
  }

  // spfs_file_extent_data_bytes
  function DataBytes(blocks: nat, bs: nat): int {
    blocks * bs - HEADER_SIZE
  }

  ghost predicate ExtentAt(b: map<Sector, Block>, e: Ext, next: Sector, bs: nat) {
    && e.start != 0 && e.blocks >= 1 && bs >= HEADER_SIZE && Sized(b, e.start, e.blocks, bs)
    && HeaderIs(Sec(b, e.start), Header(next, e.blocks, e.length))
    && e.length <= DataBytes(e.blocks, bs)
  }

  // The data behind the header in the first sector, then the inner sectors up to sector j.
  ghost function Front(b: map<Sector, Block>, x: Sector, j: nat): seq<Byte>
    requires |Sec(b, x)| >= HEADER_SIZE
  {
    Sec(b, x)[HEADER_SIZE..] + Sectors(b, x + 1, j)
  }

  lemma FrontIsData(b: map<Sector, Block>, e: Ext, next: Sector, bs: nat)
    requires ExtentAt(b, e, next, bs)
    ensures DataOf(b, e) == Front(b, e.start, e.blocks - 1) && |DataOf(b, e)| == DataBytes(e.blocks, bs)
  {
    SectorsFirst(b, e.start, e.blocks);
    SectorsSize(b, e.start, e.blocks, bs);
    DropFront(Sec(b, e.start), Sectors(b, e.start + 1, e.blocks - 1), HEADER_SIZE);
    assert e.blocks * bs >= bs;
  }

  lemma DropFront<T>(a: seq<T>, b: seq<T>, n: nat)
    requires n <= |a|
    ensures (a + b)[n..] == a[n..] + b
  {
  }

  // spfs_do_write: count the position down through the buffer, then copy what fits.
  method DoWrite(bh: Buffer, bhPos: nat, input: seq<Byte>, ppos: nat)
    returns (written: nat, end: nat, rest: seq<Byte>, pos: nat)
    requires bhPos <= bh.data.Length
    modifies bh.data
    ensures var d := old(bh.Bytes())[bhPos..]; var r := Pour(d, ppos, input);
      && bh.Bytes() == old(bh.Bytes())[..bhPos] + r.data && pos == r.pos && rest == r.rest
      && written == |input| - |rest| && end == bhPos + Min(ppos, |d|) + written
  {
    hide Buffer.Bytes, Splice, Pour;
    ghost var s := bh.Bytes();
    var con := Min(ppos, bh.Remaining(bhPos));
    pos := ppos - con;
    end := bhPos + con;
    written, rest := 0, input;
    PourBehind(s, bhPos, ppos, input);
    if pos == 0 {
      var n := Min(|input|, bh.Remaining(end));
      if n > 0 {
        bh.CopyIn(end, input[..n]);
      }
      rest := input[n..];
      written := n;
      end := end + n;
    }
  }

  // Pouring into a buffer from some offset on is one copy into it.
  lemma PourBehind(s: seq<Byte>, k: nat, p: nat, x: seq<Byte>)
    requires k <= |s|
    ensures s[..k] + s[k..] == s
    ensures var d := s[k..]; p > |d| ==> Pour(d, p, x) == Poured(d, p - |d|, x)
    ensures var d := s[k..]; var n := Min(|x|, |d| - Min(p, |d|));
      p <= |d| ==>
        && Pour(d, p, x).pos == 0 && Pour(d, p, x).rest == x[n..]
        && s[..k] + Pour(d, p, x).data == if n > 0 then Splice(s, k + p, x[..n]) else s
  {
    var d := s[k..];
    var con := Min(p, |d|);
    var n := Min(|x|, |d| - con);
    assert s == s[..k] + d;
    if p > con {
      PourPast(d, p, x);
    } else {
      SpliceSecond(s[..k], d, con, x[..n]);
      if n == 0 {
        assert x[..n] == [];
        SpliceNothing(d, con);
      }
    }
  }

  // How far into the inner sectors the written bytes reach, seen from the front of the data.
  ghost function Reach(length: nat, base: nat, d: seq<Byte>, p: nat, x: seq<Byte>): nat {
    var w := |x| - |Pour(d, p, x).rest|;
    if w > 0 then Max(length, base + Min(p, |d|) + w) else length
  }

  // Going on behind a piece reaches as far as pouring into both pieces.
  lemma ReachAppend(length: nat, base: nat, d: seq<Byte>, e: seq<Byte>, p: nat, x: seq<Byte>)
    ensures var a := Pour(d, p, x);
      Reach(length, base, d + e, p, x) == Reach(Reach(length, base, d, p, x), base + |d|, e, a.pos, a.rest)
  {
    var a := Pour(d, p, x);
    hide Pour;
    PourAppend(d, e, p, x);
    if p >= |d| {
      PourPast(d, p, x);
    } else if |x| <= |d| - p {
      PourInside(d, p, x);
    } else {
      PourOver(d, p, x);
      PourFirst(e, a.rest);
    }
  }

  lemma PourFirst(d: seq<Byte>, x: seq<Byte>)
    ensures |x| - |Pour(d, 0, x).rest| == Min(|x|, |d|)
  {
  }

  // The loop of spfs_write_file_extent over the sectors behind the first.
  method WriteInner(disk: Disk, start: Sector, n: nat, input: seq<Byte>, ppos: nat, len: nat)
    returns (rest: seq<Byte>, pos: nat, length: nat)
    requires disk.bs >= HEADER_SIZE && Sized(disk.blocks, start + 1, n, disk.bs)
    requires |input| > 0 || ppos == 0
    modifies disk
    ensures var d := Sectors(old(disk.blocks), start + 1, n); var r := Pour(d, ppos, input);
      && Sectors(disk.blocks, start + 1, n) == r.data && rest == r.rest && pos == r.pos
      && length == Reach(len, disk.bs - HEADER_SIZE, d, ppos, input)
    ensures Sized(disk.blocks, start + 1, n, disk.bs) && disk.blocks.Keys == old(disk.blocks).Keys
    ensures forall x :: x in disk.blocks && !(start < x <= start + n) ==> disk.blocks[x] == old(disk.blocks)[x]
  {
    hide Pour, Reach, Sec, DataBytes;
    ghost var b0 := disk.blocks;
    ghost var base := disk.bs - HEADER_SIZE;
    rest, pos, length := input, ppos, len;
    var it := start + 1;
    var end := start + 1 + n;
    PourPast([], ppos, input);
    NoReach(len, base, ppos, input);
    while |rest| > 0 && it < end
      invariant start + 1 <= it <= end
      invariant Sized(disk.blocks, start + 1, n, disk.bs) && disk.blocks.Keys == b0.Keys
      invariant forall x :: x in b0 && !(start < x < it) ==> disk.blocks[x] == b0[x]
      invariant Sectors(disk.blocks, start + 1, it - start - 1) ==
        Pour(Sectors(b0, start + 1, it - start - 1), ppos, input).data
      invariant rest == Pour(Sectors(b0, start + 1, it - start - 1), ppos, input).rest
      invariant pos == Pour(Sectors(b0, start + 1, it - start - 1), ppos, input).pos
      invariant length == Reach(len, base, Sectors(b0, start + 1, it - start - 1), ppos, input)
    {
      ghost var b1, j, s := disk.blocks, it - start - 1, Sec(b0, it);
      ghost var d := Sectors(b0, start + 1, j);
      SecSame(b0, b1, it);
      SectorsSize(b0, start + 1, j, disk.bs);
      PourAppend(d, s, ppos, input);
      ReachAppend(len, base, d, s, ppos, input);
      BaseStep(disk.bs, j);
      rest, pos, length := WriteSector(disk, it, (it - start) * disk.bs - HEADER_SIZE, rest, pos, length);
      SectorsSame2(b1, disk.blocks, start + 1, j);
      it := it + 1;
    }
    UsedUp(b0, disk.blocks, start + 1, it - start - 1, n, ppos, input, len, base);
  }

  // When the input ends before the sectors do, the sectors left over are as they were.
  lemma UsedUp(b0: map<Sector, Block>, b: map<Sector, Block>, x: Sector, j: nat, n: nat, p: nat, input: seq<Byte>,
               len: nat, base: nat)
    requires j <= n && (|input| > 0 || p == 0)
    requires forall y :: x + j <= y < x + n ==> y in b0 && y in b && b[y] == b0[y]
    requires Sectors(b, x, j) == Pour(Sectors(b0, x, j), p, input).data
    requires j < n ==> Pour(Sectors(b0, x, j), p, input).rest == []
    ensures var d, e := Sectors(b0, x, j), Sectors(b0, x, n);
      && Sectors(b, x, n) == Pour(e, p, input).data
      && Pour(e, p, input).rest == Pour(d, p, input).rest && Pour(e, p, input).pos == Pour(d, p, input).pos
      && Reach(len, base, e, p, input) == Reach(len, base, d, p, input)
  {
    hide Pour, Reach, Sectors;
    if j < n {
      var d, z := Sectors(b0, x, j), Sectors(b0, x + j, n - j);
      SectorsSplit(b0, x, j, n);
      SectorsSplit(b, x, j, n);
      SectorsSame2(b0, b, x + j, n - j);
      PourAppend(d, z, p, input);
      ReachAppend(len, base, d, z, p, input);
      PourNone(d, z, p, input);
      NoReach2(Reach(len, base, d, p, input), base + |d|, z);
    }
  }

  lemma BaseStep(bs: nat, j: nat)
    ensures (j + 1) * bs - HEADER_SIZE == bs - HEADER_SIZE + j * bs
  {
  }

  lemma NoReach(length: nat, base: nat, p: nat, x: seq<Byte>)
    ensures Reach(length, base, [], p, x) == length
  {
  }

  lemma NoReach2(length: nat, base: nat, d: seq<Byte>)
    ensures Reach(length, base, d, 0, []) == length
  {
  }

  lemma PourNothing(z: seq<Byte>)
    ensures Pour(z, 0, []) == Poured(z, 0, [])
  {
    hide Pour, Splice;
    PourInside(z, 0, []);
    SpliceNothing(z, 0);
  }

  // Once the input is used up, the position is used up too and the rest stays as it is.
  lemma PourNone(d: seq<Byte>, z: seq<Byte>, p: nat, x: seq<Byte>)
    requires (|x| > 0 || p == 0) && Pour(d, p, x).rest == []
    ensures Pour(d, p, x).pos == 0 && Pour(z, 0, []) == Poured(z, 0, [])
  {
    hide Pour;
    if |x| > 0 {
      PosUsed(d, p, x);
    } else {
      assert x == [];
      PourNothing(d);
    }
    PourNothing(z);
  }

  lemma SecSame(b: map<Sector, Block>, b': map<Sector, Block>, x: Sector)
    requires x in b && x in b' && b[x] == b'[x]
    ensures Sec(b, x) == Sec(b', x)
  {
  }

  lemma SectorsSame2(b: map<Sector, Block>, b': map<Sector, Block>, x: Sector, n: nat)
    requires forall y :: x <= y < x + n ==> y in b && y in b' && b'[y] == b[y]
    ensures Sectors(b', x, n) == Sectors(b, x, n)
  {
    SectorsSame(b, b', x, n);
  }

  lemma SizedSame(b: map<Sector, Block>, b': map<Sector, Block>, x: Sector, n: nat, bs: nat)
    requires Sized(b, x, n, bs) && forall y :: x <= y < x + n ==> y in b && y in b' && b'[y] == b[y]
    ensures Sized(b', x, n, bs)
  {
  }

  lemma {:induction false} SectorsSplit(b: map<Sector, Block>, x: Sector, j: nat, n: nat)
    requires j <= n
    ensures Sectors(b, x, n) == Sectors(b, x, j) + Sectors(b, x + j, n - j)
  {
    if j < n {
      SectorsSplit(b, x, j, n - 1);
    } else {
      assert Sectors(b, x + j, 0) == [];
    }
  }

  // One sector behind the first.
  method WriteSector(disk: Disk, it: Sector, front: nat, input: seq<Byte>, ppos: nat, len: nat)
    returns (rest: seq<Byte>, pos: nat, length: nat)
    requires it in disk.blocks && disk.blocks[it].Raw? && |disk.blocks[it].bytes| == disk.bs
    modifies disk
    ensures var r := Pour(Sec(old(disk.blocks), it), ppos, input);
      Sec(disk.blocks, it) == r.data && rest == r.rest && pos == r.pos
    ensures length == Reach(len, front, Sec(old(disk.blocks), it), ppos, input)
    ensures it in disk.blocks && disk.blocks[it].Raw? && |disk.blocks[it].bytes| == disk.bs
    ensures disk.blocks == old(disk.blocks)[it := disk.blocks[it]]
  {
    hide Pour, Buffer.Bytes;
    ghost var s := Sec(disk.blocks, it);
    rest, pos, length := input, ppos, len;
    if pos < disk.bs {
      var bh := new Buffer.Read(disk.blocks[it].bytes);
      var res, to;
      res, to, rest, pos := DoWrite(bh, 0, rest, pos);
      assert s[0..] == s && s[..0] == [];
      if res > 0 {
        length := Max(length, front + to);
        disk.blocks := disk.blocks[it := Raw(bh.Bytes())];
      } else {
        PourUnused(s, ppos, input);
      }
    } else {
      PourPast(s, ppos, input);
      pos := pos - disk.bs;
    }
  }

  lemma SpliceNothing(d: seq<Byte>, i: nat)
    requires i <= |d|
    ensures Splice(d, i, []) == d
  {
  }

  lemma PourUnused(d: seq<Byte>, p: nat, x: seq<Byte>)
    requires |Pour(d, p, x).rest| == |x|
    ensures Pour(d, p, x).data == d && Pour(d, p, x).rest == x
  {
    hide Splice;
    var skip := Min(p, |d|);
    var w := Min(|x|, |d| - skip);
    assert w == 0 && x[..0] == [] && x[0..] == x;
    SpliceNothing(d, skip);
  }

  // The extent after a write, and the successor its header names.
  ghost function Written(b: map<Sector, Block>, e: Ext, p: nat, x: seq<Byte>): (w: Ext)
    ensures w.start == e.start && w.blocks == e.blocks
  {
    Ext(e.start, e.blocks, Reach(e.length, 0, DataOf(b, e), p, x))
  }

  function Successor(next: Sector, extra: Sector): Sector {
    if next == 0 then extra else next
  }

  // spfs_write_file_extent: pour into the data of the extent; a pending new extent is linked
  // behind the last one.
  method WriteFileExtent(disk: Disk, start: Sector, input: seq<Byte>, ppos: nat, extra: Sector, ghost e: Ext,
                         ghost next: Sector)
    returns (ok: bool, h: Header, rest: seq<Byte>, pos: nat, pending: Sector)
    requires start == e.start && ExtentAt(disk.blocks, e, next, disk.bs) && |input| > 0
    requires e.blocks * disk.bs <= TWO_32 && extra < TWO_32
    modifies disk
    ensures ok && h == Header(Successor(next, extra), e.blocks, Written(old(disk.blocks), e, ppos, input).length)
    ensures pending == if next == 0 then 0 else extra
    ensures var b := old(disk.blocks);
      var r, e' := Pour(DataOf(b, e), ppos, input), Written(b, e, ppos, input);
      && ExtentAt(disk.blocks, e', Successor(next, extra), disk.bs)
      && DataOf(disk.blocks, e') == r.data && rest == r.rest && pos == r.pos
    ensures disk.blocks.Keys == old(disk.blocks).Keys
    ensures forall x :: x in disk.blocks && !(start <= x < start + e.blocks) ==> disk.blocks[x] == old(disk.blocks)[x]
  {
    hide Pour, Reach, Word, Buffer.Bytes, Sectors, Splice, HeaderIs, Written, DataOf, Sec, Sized;
    ghost var b0, s := disk.blocks, Sec(disk.blocks, start);
    FirstSector(b0, e, next, disk.bs);
    HeadStep(b0, e, next, disk.bs, ppos, input);
    var head := new Buffer.Read(disk.blocks[start].bytes);
    ok, h := ParseFileExtent(head);
    HeaderUnique(s, h, Header(next, e.blocks, e.length));
    pending := extra;
    var dirty := false;
    if h.next == 0 && pending != 0 {
      h := h.(next := pending);
      dirty := true;
      pending := 0;
    }
    var res, to;
    res, to, rest, pos := DoWrite(head, HEADER_SIZE, input, ppos);
    HeadBytes(s, head.Bytes(), ppos, input, e.length, res, to);
    if res > 0 {
      h := h.(length := Max(h.length, to - HEADER_SIZE));
      dirty := true;
    }
    var length;
    ghost var mid, midRest := pos, rest;
    rest, pos, length := WriteInner(disk, start, h.capacity - 1, rest, pos, h.length);
    dirty := dirty || |rest| < |input|;
    h := h.(length := length);
    ghost var b1, t := disk.blocks, head.Bytes();
    if dirty {
      MakeFileExtent(head, h);
      disk.blocks := disk.blocks[start := Raw(head.Bytes())];
    }
    SectorsSame2(b1, disk.blocks, start + 1, e.blocks - 1);
    SizedSame(b1, disk.blocks, start + 1, e.blocks - 1, disk.bs);
    if !dirty {
      NothingWritten(disk.bs - HEADER_SIZE, Sectors(b0, start + 1, e.blocks - 1), mid, midRest, e.length);
      SecIs(disk.blocks, start, s);
    } else {
      SecIs(disk.blocks, start, head.Bytes());
    }
    Assemble(disk.blocks, Written(b0, e, ppos, input), Successor(next, extra), disk.bs);
  }

  lemma SecIs(b: map<Sector, Block>, x: Sector, s: seq<Byte>)
    requires x in b && b[x] == Raw(s)
    ensures Sec(b, x) == s
  {
  }

  lemma NothingWritten(base: nat, d: seq<Byte>, p: nat, x: seq<Byte>, len: nat)
    requires |Pour(d, p, x).rest| == |x|
    ensures Reach(len, base, d, p, x) == len
  {
  }

  // An extent put together from its first sector and the others.
  lemma Assemble(b: map<Sector, Block>, e: Ext, next: Sector, bs: nat)
    requires e.start != 0 && e.blocks >= 1 && bs >= HEADER_SIZE && e.start in b && b[e.start].Raw?
    requires |b[e.start].bytes| == bs
    requires Sized(b, e.start + 1, e.blocks - 1, bs) && e.length <= DataBytes(e.blocks, bs)
    requires HeaderIs(Sec(b, e.start), Header(next, e.blocks, e.length))
    ensures ExtentAt(b, e, next, bs)
    ensures DataOf(b, e) == Sec(b, e.start)[HEADER_SIZE..] + Sectors(b, e.start + 1, e.blocks - 1)
  {
    hide Sectors;
    assert Sized(b, e.start, e.blocks, bs);
    FrontIsData(b, e, next, bs);
  }

  lemma FirstSector(b: map<Sector, Block>, e: Ext, next: Sector, bs: nat)
    requires ExtentAt(b, e, next, bs)
    ensures e.start in b && b[e.start] == Raw(Sec(b, e.start)) && |Sec(b, e.start)| == bs
    ensures HeaderIs(Sec(b, e.start), Header(next, e.blocks, e.length)) && Word(Sec(b, e.start), 0) == MAGIC
    ensures Sized(b, e.start + 1, e.blocks - 1, bs)
    ensures next < TWO_32 && e.length < TWO_32 && e.blocks < TWO_32
  {
  }

  lemma HeaderUnique(s: seq<Byte>, h: Header, g: Header)
    requires HeaderIs(s, h) && HeaderIs(s, g)
    ensures h == g
  {
  }

  // Pouring into an extent is pouring into its first sector behind the header, then the others.
  lemma HeadStep(b: map<Sector, Block>, e: Ext, next: Sector, bs: nat, p: nat, x: seq<Byte>)
    requires ExtentAt(b, e, next, bs) && |x| > 0
    ensures var d, z := Sec(b, e.start)[HEADER_SIZE..], Sectors(b, e.start + 1, e.blocks - 1);
      var u := Pour(d, p, x); var v := Pour(z, u.pos, u.rest);
      && Pour(DataOf(b, e), p, x) == Poured(u.data + v.data, v.pos, v.rest)
      && Written(b, e, p, x).length == Reach(Reach(e.length, 0, d, p, x), bs - HEADER_SIZE, z, u.pos, u.rest)
      && (|u.rest| > 0 || u.pos == 0)
    ensures Written(b, e, p, x).length <= DataBytes(e.blocks, bs)
  {
    hide Sectors, Pour, Reach;
    var d, z := Sec(b, e.start)[HEADER_SIZE..], Sectors(b, e.start + 1, e.blocks - 1);
    FrontIsData(b, e, next, bs);
    PourAppend(d, z, p, x);
    ReachAppend(e.length, 0, d, z, p, x);
    ReachBound(e.length, DataOf(b, e), p, x);
    PosUsed(d, p, x);
  }

  lemma ReachBound(len: nat, d: seq<Byte>, p: nat, x: seq<Byte>)
    ensures Reach(len, 0, d, p, x) <= Max(len, |d|)
  {
  }

  lemma PosUsed(d: seq<Byte>, p: nat, x: seq<Byte>)
    requires |x| > 0
    ensures |Pour(d, p, x).rest| > 0 || Pour(d, p, x).pos == 0
  {
  }

  // The first sector after the copy.
  lemma HeadBytes(s: seq<Byte>, t: seq<Byte>, p: nat, x: seq<Byte>, len: nat, res: nat, to: nat)
    requires |s| >= HEADER_SIZE
    requires var d := s[HEADER_SIZE..]; var r := Pour(d, p, x);
      t == s[..HEADER_SIZE] + r.data && res == |x| - |r.rest| && to == HEADER_SIZE + Min(p, |d|) + res
    ensures t[HEADER_SIZE..] == Pour(s[HEADER_SIZE..], p, x).data && |t| == |s|
    ensures Reach(len, 0, s[HEADER_SIZE..], p, x) == if res > 0 then Max(len, to - HEADER_SIZE) else len
    ensures res == 0 ==> t == s && Pour(s[HEADER_SIZE..], p, x).rest == x
  {
    if res == 0 {
      PourUnused(s[HEADER_SIZE..], p, x);
    }
  }

  // Sector j of a run, found again in the run.
  lemma SectorAt(b: map<Sector, Block>, x: Sector, n: nat, bs: nat, j: nat, i: nat, k: nat)
    requires Sized(b, x, n, bs) && j < n && i + k <= bs
    ensures j * bs + i + k <= |Sectors(b, x, n)| && |Sec(b, x + j)| == bs
    ensures Sectors(b, x, n)[j * bs + i..j * bs + i + k] == Sec(b, x + j)[i..i + k]
  {
    SectorsSplit(b, x, j, n);
    SectorsFirst(b, x + j, n - j);
    SectorsSize(b, x, j, bs);
    SectorsSize(b, x, n, bs);
    MiddleSlice(Sectors(b, x, j), Sec(b, x + j), Sectors(b, x + j + 1, n - j - 1), i, k);
  }

  lemma MiddleSlice<T>(a: seq<T>, m: seq<T>, z: seq<T>, i: nat, k: nat)
    requires i + k <= |m|
    ensures |a| + i + k <= |a + (m + z)| && (a + (m + z))[|a| + i..|a| + i + k] == m[i..i + k]
  {
  }

  // The bytes in use of an extent.
  ghost function InUse(b: map<Sector, Block>, e: Ext): seq<Byte> {
    var d := DataOf(b, e);
    if e.length <= |d| then d[..e.length] else d
  }

  // The next stretch of an extent to read, in the sector it lies in.
  lemma Stretch(b: map<Sector, Block>, e: Ext, next: Sector, bs: nat, j: nat, i: nat, left: nat)
    requires ExtentAt(b, e, next, bs) && bs > HEADER_SIZE && left <= e.length && i < bs
    requires HEADER_SIZE + (e.length - left) == j * bs + i
    requires left > 0 || j < e.blocks
    ensures j < e.blocks && |Sec(b, e.start + j)| == bs
    ensures var k := Min(bs - i, left); var done := e.length - left;
      && done + k <= |InUse(b, e)| == e.length && InUse(b, e)[done..done + k] == Sec(b, e.start + j)[i..i + k]
      && InUse(b, e)[..done + k] == InUse(b, e)[..done] + InUse(b, e)[done..done + k]
  {
    hide Sectors, HeaderIs, Sec;
    FrontIsData(b, e, next, bs);
    SectorsSize(b, e.start, e.blocks, bs);
    if j >= e.blocks {
      MulLe(e.blocks, j, bs);
    }
    var k := Min(bs - i, left);
    SectorAt(b, e.start, e.blocks, bs, j, i, k);
    ShiftSlice(Sectors(b, e.start, e.blocks), HEADER_SIZE, e.length, e.length - left, e.length - left + k);
  }

  lemma ShiftSlice<T>(s: seq<T>, n: nat, len: nat, i: nat, j: nat)
    requires i <= j <= len && n + len <= |s|
    ensures s[n..][..len][i..j] == s[n + i..n + j]
    ensures s[n..][..len][..j] == s[n..][..len][..i] + s[n..][..len][i..j]
  {
  }

  // One turn of the loop of spfs_read_file_extent: what one sector gives.
  method ReadStretch(bh: Buffer, bhPos: nat, length: nat, count: nat, ppos: nat)
    returns (out: seq<Byte>, used: nat, left: nat, pos: nat)
    requires bhPos <= bh.data.Length
    ensures var k := Min(bh.data.Length - bhPos, length);
      && Drained(out, pos, left) == Drain(bh.Bytes()[bhPos..bhPos + k], ppos, count)
      && used <= k && (left > 0 ==> used == k)
  {
    var con := Min(ppos, Min(bh.Remaining(bhPos), length));
    used := con;
    pos := ppos - con;
    out, left := [], count;
    if pos == 0 {
      con := Min(count, Min(bh.Remaining(bhPos + used), length - used));
      out := bh.data[bhPos + used..bhPos + used + con];
      SliceSlice(bh.Bytes(), bhPos, bhPos + Min(bh.data.Length - bhPos, length), used, used + con);
      used := used + con;
      left := left - con;
    } else {
      DrainPast(bh.Bytes()[bhPos..bhPos + Min(bh.data.Length - bhPos, length)], ppos, count);
    }
  }

  lemma SliceSlice<T>(s: seq<T>, a: nat, b: nat, i: nat, j: nat)
    requires a <= b <= |s| && i <= j <= b - a
    ensures s[a..b][i..j] == s[a + i..a + j]
  {
    var t := s[a..b];
    forall k | 0 <= k < j - i ensures t[i..j][k] == s[a + i..a + j][k] {
      assert t[i + k] == s[a + i + k];
    }
  }

  // spfs_read_file_extent; the loop also ends when nothing more is asked for.
  method ReadFileExtent(disk: Disk, start: Sector, count: nat, ppos: nat, ghost e: Ext, ghost succ: Sector)
    returns (ok: bool, next: Sector, out: seq<Byte>, left: nat, pos: nat)
    requires start == e.start && ExtentAt(disk.blocks, e, succ, disk.bs) && disk.bs > HEADER_SIZE && count > 0
    ensures ok && next == succ
    ensures Drained(out, pos, left) == Drain(InUse(disk.blocks, e), ppos, count)
  {
    hide Drain, Sectors, HeaderIs, InUse, Sec, Sized, Buffer.Bytes, Word;
    ghost var b, bs, d := disk.blocks, disk.bs, InUse(disk.blocks, e);
    var h;
    FirstSector(b, e, succ, bs);
    var bh := new Buffer.Read(disk.blocks[start].bytes);
    ok, h := ParseFileExtent(bh);
    HeaderUnique(bh.Bytes(), h, Header(succ, e.blocks, e.length));
    next := h.next;
    var bhPos: nat, length: nat, j: nat := HEADER_SIZE, h.length, 0;
    out, left, pos := [], count, ppos;
    NoDrain(d, ppos, count);
    while true
      invariant length <= e.length && left > 0 && bhPos < bs
      invariant HEADER_SIZE + (e.length - length) == j * bs + bhPos
      invariant length > 0 || j < e.blocks
      invariant bh.Bytes() == Sec(b, start + j)
      invariant e.length - length <= |d| && Drained(out, pos, left) == Drain(d[..e.length - length], ppos, count)
      decreases length
    {
      Stretch(b, e, succ, bs, j, bhPos, length);
      ghost var done := e.length - length;
      DrainAppend(d[..done], d[done..done + Min(bs - bhPos, length)], ppos, count);
      var more, used;
      more, used, left, pos := ReadStretch(bh, bhPos, length, left, pos);
      out := out + more;
      length := length - used;
      if length == 0 || left == 0 {
        DrainRest(d, done + Min(bs - bhPos, length + used), ppos, count);
        break;
      }
      j := j + 1;
      bhPos := 0;
      Stretch(b, e, succ, bs, j, bhPos, length);
      RawSector(b, e, succ, bs, j);
      bh := new Buffer.Read(disk.blocks[start + j].bytes);
    }
  }

  lemma RawSector(b: map<Sector, Block>, e: Ext, next: Sector, bs: nat, j: nat)
    requires ExtentAt(b, e, next, bs) && j < e.blocks
    ensures e.start + j in b && b[e.start + j] == Raw(Sec(b, e.start + j))
  {
  }

  // Nothing is left to read, or nothing more is asked for.
  lemma DrainRest(d: seq<Byte>, k: nat, p: nat, n: nat)
    requires k <= |d| && n > 0 && (k == |d| || Drain(d[..k], p, n).left == 0)
    ensures Drain(d, p, n) == Drain(d[..k], p, n)
  {
    if k < |d| {
      DrainAppend(d[..k], d[k..], p, n);
      assert d == d[..k] + d[k..];
      DrainInside(d[k..], 0, 0);
      LeftUsed(d[..k], p, n);
    } else {
      assert d[..k] == d;
    }
  }

  lemma LeftUsed(d: seq<Byte>, p: nat, n: nat)
    requires n > 0 && Drain(d, p, n).left == 0
    ensures Drain(d, p, n).pos == 0
  {
  }

  lemma NoDrain(d: seq<Byte>, p: nat, n: nat)
    ensures Drain(d[..0], p, n) == Drained([], p, n)
  {
  }
}
