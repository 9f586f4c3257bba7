// Formatting and mounting (mkfs.spfs.c, spfs_fill_super_block): where every run starts.

module Mounts {
  import opened Entries
  import opened Disks
  import opened FreeLists
  import opened Words
  import opened Trees
  import opened Layouts
  import opened BTrees
  import opened Supers
  import opened Directories
  import opened Worlds
  import opened FileSystems

  // bnode_capacity
  const NODE_CAPACITY := 100

  // The bytes of an index node: its length, the entries, and one more child than entries.
  const NODE_BYTES := 4 + 16 * NODE_CAPACITY + 8 * (NODE_CAPACITY + 1)

  const SUPER_MAGIC := 0xDEAD_BEEF
  const SUPER_BYTES := 28

  // SPFS_ROOT_INODE_NO
  const ROOT_INODE := 1

  // struct spfs_super_block as stored, behind its magic number.
  datatype Fields = Fields(version: nat, blockSize: nat, id: nat, rootId: nat, btreeOffset: Sector, freeOffset: Sector)

  function FieldsOf(s: seq<Byte>): Fields
    requires |s| >= SUPER_BYTES
  {
    Fields(Word(s, 4), Word(s, 8), Word(s, 12), Word(s, 16), Word(s, 20), Word(s, 24))
  }

  // What spfs_super_block_init accepts.
  predicate SuperOk(s: seq<Byte>) {
    |s| >= SUPER_BYTES && Word(s, 0) == SUPER_MAGIC && FieldsOf(s).blockSize >= MIN_BLOCK_SIZE
  }

  // Where the fields stand.
  ghost predicate FieldsAt(s: seq<Byte>, f: Fields) {
    && BigEndian(s, 4, f.version) && BigEndian(s, 8, f.blockSize) && BigEndian(s, 12, f.id)
    && BigEndian(s, 16, f.rootId) && BigEndian(s, 20, f.btreeOffset) && BigEndian(s, 24, f.freeOffset)
  }

  lemma FieldsBytes(s: seq<Byte>)
    requires |s| >= SUPER_BYTES
    ensures FieldsAt(s, FieldsOf(s))
    ensures SuperOk(s) <==> s[..4] == [0xDE, 0xAD, 0xBE, 0xEF] && FieldsOf(s).blockSize >= 512
  {
    hide Word, BigEndian;
    MagicBytes(s);
    WordIs(s, 4);
    WordIs(s, 8);
    WordIs(s, 12);
    WordIs(s, 16);
    WordIs(s, 20);
    WordIs(s, 24);
  }

  // spfs_read_super_block with the checks of spfs_super_block_init.
  method ReadSuper(bh: Buffer) returns (ok: bool, f: Fields)
    requires bh.data.Length >= MIN_BLOCK_SIZE
    ensures ok == SuperOk(bh.Bytes()) && f == FieldsOf(bh.Bytes()) && FieldsAt(bh.Bytes(), f)
    ensures ok <==> bh.Bytes()[..4] == [0xDE, 0xAD, 0xBE, 0xEF] && f.blockSize >= 512
  {
    hide Word, Buffer.Bytes, BigEndian;
    MagicBytes(bh.Bytes());
    FieldsBytes(bh.Bytes());
    var pos, magic, version, blockSize, id, rootId, btreeOffset, freeOffset;
    ok, pos, magic := bh.ReadU32(0);
    ok, pos, version := bh.ReadU32(pos);
    ok, pos, blockSize := bh.ReadU32(pos);
    ok, pos, id := bh.ReadWide(pos);
    ok, pos, rootId := bh.ReadWide(pos);
    ok, pos, btreeOffset := bh.ReadWide(pos);
    ok, pos, freeOffset := bh.ReadWide(pos);
    f := Fields(version, blockSize, id, rootId, btreeOffset, freeOffset);
    ok := magic == SUPER_MAGIC && blockSize >= MIN_BLOCK_SIZE;
  }

  // What mkfs writes to sector 0.
  ghost function SuperImage(f: Fields, bs: nat): seq<Byte>
    requires bs >= SUPER_BYTES
  {
    Enc(SUPER_MAGIC) + Enc(f.version) + Enc(f.blockSize) + Enc(f.id) + Enc(f.rootId) + Enc(f.btreeOffset)
    + Enc(f.freeOffset) + Zeros(bs - SUPER_BYTES)
  }

  lemma SuperReadBack(f: Fields, bs: nat)
    requires bs >= MIN_BLOCK_SIZE && f.version < TWO_32 && f.blockSize < TWO_32 && f.id < TWO_32
    requires f.rootId < TWO_32 && f.btreeOffset < TWO_32 && f.freeOffset < TWO_32 && f.blockSize >= MIN_BLOCK_SIZE
    ensures SuperOk(SuperImage(f, bs)) && FieldsOf(SuperImage(f, bs)) == f && |SuperImage(f, bs)| == bs
    ensures FieldsAt(SuperImage(f, bs), f) && SuperImage(f, bs)[..4] == [0xDE, 0xAD, 0xBE, 0xEF]
  {
    hide Enc, Dec, FieldsAt;
    FieldsBytes(SuperImage(f, bs));
    var s := SuperImage(f, bs);
    assert s[0..4] == Enc(SUPER_MAGIC) && s[4..8] == Enc(f.version) && s[8..12] == Enc(f.blockSize);
    assert s[12..16] == Enc(f.id) && s[16..20] == Enc(f.rootId);
    assert s[20..24] == Enc(f.btreeOffset) && s[24..28] == Enc(f.freeOffset);
    DecEnc(SUPER_MAGIC);
    DecEnc(f.version);
    DecEnc(f.blockSize);
    DecEnc(f.id);
    DecEnc(f.rootId);
    DecEnc(f.btreeOffset);
    DecEnc(f.freeOffset);
  }

  // A device whose free sectors are untouched and whose free list is sound.
  ghost predicate Sound(b: map<Sector, Block>, exts: seq<Extent>, bs: nat) {
    && Apart(exts) && 0 !in Cover(exts) && Clean(b, Cover(exts), bs) && Small(b, bs) && bs >= NODE_BYTES
  }

  // What is stored on a device: a free list, an index whose numbers lie below the next one, and
  // the blocks of the root directory, if the index has it.
  datatype Stock = Stock(exts: seq<Extent>, tree: Tree, height: nat, root: seq<DirBlk>)

  ghost predicate Kept(b: map<Sector, Block>, bs: nat, f: Fields, d: Stock) {
    var av, idx := Cover(d.exts), Inodes(b, Flat(d.tree));
    && Sound(b, d.exts, bs) && f.blockSize == bs && Root(d.tree) == f.btreeOffset
    && Stored(b, av, d.tree, d.height, 1, NODE_CAPACITY) && Homes(b, Flat(d.tree), Secs(d.tree), av)
    && Agreed(map[], idx, f.id)
    && (f.rootId in idx ==>
          && ObjAt(b, av, bs, DirO(idx[f.rootId].start, idx[f.rootId].capacity, d.root))
          && Known(idx, Kids(d.root)))
  }

  // An empty index needs nothing but the free list.
  lemma NothingKept(b: map<Sector, Block>, bs: nat, f: Fields, exts: seq<Extent>)
    requires Sound(b, exts, bs) && f.blockSize == bs && f.btreeOffset == 0 && f.id > 0
    ensures Kept(b, bs, f, Stock(exts, Nil, 0, []))
  {
    hide Sound, Cover;
    assert Flat(Nil) == [] && ToMap([]) == map[];
    assert Inodes(b, Flat(Nil)) == map[];
    assert Secs(Nil) == multiset{};
  }

  // What mkfs leaves on a device that was zero: the super block, a free-list block with one
  // extent, and the sectors of that extent.
  ghost function Formatted(n: nat, bs: nat): map<Sector, Block>
    requires bs >= NODE_BYTES
  {
    var super := SuperImage(Fields(1, bs, ROOT_INODE, ROOT_INODE, 0, 1), bs);
    (map x: Sector | x in Run(2, n) :: Raw(Zeros(bs)))[0 := Raw(super)][1 := FreeB([Extent(2, n)], 0)]
  }

  lemma FormattedSound(n: nat, bs: nat)
    requires (n + 2) * bs <= TWO_32 && bs >= NODE_BYTES
    ensures var b := Formatted(n, bs);
      && 0 in b && b[0].Raw? && |b[0].bytes| == bs && SuperOk(b[0].bytes)
      && FieldsOf(b[0].bytes) == Fields(1, bs, 1, 1, 0, 1)
      && ListAt(b, FieldsOf(b[0].bytes).freeOffset, [1], true) && Listed(b, [1]) == [Extent(2, n)]
      && Kept(b, bs, FieldsOf(b[0].bytes), Stock([Extent(2, n)], Nil, 0, []))
      && Cover([Extent(2, n)]) == Run(2, n)
  {
    hide SuperImage, SuperOk, FieldsOf, Zeros;
    var b, exts := Formatted(n, bs), [Extent(2, n)];
    MulLe(1, n + 2, bs);
    SuperReadBack(Fields(1, bs, ROOT_INODE, ROOT_INODE, 0, 1), bs);
    assert exts[1..] == [] && Cover(exts[1..]) == {};
    assert [1][1..] == [] && Listed(b, [1][1..]) == [];
    forall x | x in b ensures (x + 1) * bs <= TWO_32 { MulLe(x + 1, n + 2, bs); }
    assert Cover(exts) == Run(2, n) && 0 !in Run(2, n) && 1 !in Run(2, n);
    assert Small(b, bs);
    assert Apart(exts);
    assert Clean(b, Cover(exts), bs);
    NothingKept(b, bs, FieldsOf(b[0].bytes), exts);
  }

  // What is stored, seen as the parts of a mounted file system.
  lemma KeptParts(b: map<Sector, Block>, bs: nat, f: Fields, d: Stock)
    requires Kept(b, bs, f, d)
    ensures var av, idx := Cover(d.exts), Inodes(b, Flat(d.tree));
      && Clean(b, av, bs) && Small(b, bs) && bs >= ROOMY && Root(d.tree) == f.btreeOffset
      && Stored(b, av, d.tree, d.height, 1, NODE_CAPACITY) && Homes(b, Flat(d.tree), Secs(d.tree), av)
      && Agreed(map[], idx, f.id)
      && (f.rootId in idx ==>
            && Joins(b, av, bs, map[], DirO(idx[f.rootId].start, idx[f.rootId].capacity, d.root))
            && Known(idx, Kids(d.root)))
  {
    hide Cover, Inodes, Stored, Homes, Clean, Small, ObjAt, Agreed, Flat, Secs;
  }

  // Index, free list and shared state put together.
  method Assemble(disk: Disk, list: FreeList, f: Fields, ghost d: Stock) returns (fs: FileSystem)
    requires list.Valid() && list.Avail() == Cover(d.exts) && Kept(disk.blocks, disk.bs, f, d)
    ensures fs.Valid() && fs.State() == map[] && fs.objs == map[] && fs.nextId == f.id && fresh(fs)
    ensures fs.sb.disk == disk && fs.sb.free == list && fs.sb.tree.c == NODE_CAPACITY
    ensures fs.sb.tree.tree == d.tree && fs.sb.tree.height == d.height && fs.sb.tree.start == f.btreeOffset
    ensures fs.sb.tree.Index() == Inodes(disk.blocks, Flat(d.tree))
  {
    hide Cover, Inodes, Stored, Homes, Clean, Small, ObjAt, Agreed, Flat, Secs, Kept, FreeList.Valid, FreeList.Avail,
      FreeList.Exts, Joins, Known;
    KeptParts(disk.blocks, disk.bs, f, d);
    var tree := new BTree.Load(NODE_CAPACITY, disk, list, f.btreeOffset, d.tree, d.height);
    var sb := new SuperBlock(disk, list, tree);
    fs := new FileSystem(sb, f.id);
  }

  // The root directory: from the index, or made in memory when the index does not have it.
  method FindRoot(fs: FileSystem, rootId: nat, ghost root: seq<DirBlk>)
    requires fs.Valid() && fs.objs == map[] && fs.State() == map[]
    requires var idx := fs.sb.tree.Index(); rootId in idx ==> Known(idx, Kids(root))
    requires var idx, b, av, bs := fs.sb.tree.Index(), fs.sb.disk.blocks, fs.sb.free.Avail(), fs.sb.disk.bs;
      rootId in idx ==> Joins(b, av, bs, map[], DirO(idx[rootId].start, idx[rootId].capacity, root))
    modifies fs`files, fs`dirs, fs`nextId, fs`objs, fs.sb.disk
    ensures fs.Valid() && fs.sb.disk.blocks == old(fs.sb.disk.blocks) && fs.sb.tree.Index() == old(fs.sb.tree.Index())
    ensures fs.State() ==
      if rootId in old(fs.sb.tree.Index()) then map[rootId := Members(Kids(root))]
      else map[old(fs.nextId) := Members([])]
    ensures fs.nextId == old(fs.nextId) + if rootId in old(fs.sb.tree.Index()) then 0 else 1
    ensures fs.objs ==
      var idx := old(fs.sb.tree.Index());
      if rootId in idx then map[rootId := DirO(idx[rootId].start, idx[rootId].capacity, root)]
      else map[old(fs.nextId) := DirO(0, 0, [])]
  {
    hide FreeList.Valid, FreeList.Avail, BTree.Index, FileSystem.Mirrors, Values, Joins, Known, Kids, Placed, Agreed;
    var miss, found := fs.sb.tree.SpfsLookup(rootId);
    if found.Some? {
      fs.LoadDirectory(rootId, found.value, root);
    } else {
      var ino := fs.MakeRoot();
    }
  }

  datatype Outcome = Mounted | BadSuper | BadFreeList

  // spfs_fill_super_block
  method Mount(disk: Disk, ghost chain: seq<Sector>, ghost whole: bool, ghost d: Stock)
    returns (res: Outcome, fs: FileSystem?)
    requires 0 in disk.blocks && disk.blocks[0].Raw? && |disk.blocks[0].bytes| == disk.bs >= MIN_BLOCK_SIZE
    requires var s := disk.blocks[0].bytes;
      SuperOk(s) ==>
        && ListAt(disk.blocks, FieldsOf(s).freeOffset, chain, whole)
        && (whole ==> Listed(disk.blocks, chain) == d.exts && Kept(disk.blocks, disk.bs, FieldsOf(s), d))
    modifies disk
    ensures disk.blocks == old(disk.blocks) && (res.Mounted? <==> fs != null)
    ensures res == if !SuperOk(disk.blocks[0].bytes) then BadSuper else if !whole then BadFreeList else Mounted
    ensures fs != null ==>
      && fs.Valid() && fs.sb.disk == disk && fs.sb.free.Avail() == Cover(d.exts) && fs.sb.tree.c == 100
      && fs.sb.tree.Index() == Inodes(disk.blocks, Flat(d.tree))
    ensures fs != null ==>
      var f := FieldsOf(disk.blocks[0].bytes);
      fs.State() == if f.rootId in Inodes(disk.blocks, Flat(d.tree)) then map[f.rootId := Members(Kids(d.root))]
                    else map[f.id := Members([])]
    ensures fs != null ==>
      var f, idx := FieldsOf(disk.blocks[0].bytes), Inodes(disk.blocks, Flat(d.tree));
      && fs.nextId == f.id + (if f.rootId in idx then 0 else 1)
      && fs.objs == if f.rootId in idx then map[f.rootId := DirO(idx[f.rootId].start, idx[f.rootId].capacity, d.root)]
                    else map[f.id := DirO(0, 0, [])]
    ensures fs != null ==>
      && fs.sb.free.Exts() == Reversed(d.exts) && fs.sb.tree.tree == d.tree && fs.sb.tree.height == d.height
      && fs.sb.tree.start == FieldsOf(disk.blocks[0].bytes).btreeOffset
  {
    hide Cover, Total, Apart, Listed, ListAt, FreeList.Valid, FreeList.Avail, FreeList.Exts, World, Values,
      FileSystem.Mirrors, SuperOk, FieldsOf, Inodes, Flat, Kids, Joins, Known, BTree.Index, Kept, Buffer.Bytes,
      FileSystem.Valid, Reversed;
    fs := null;
    var bh := new Buffer.Read(disk.blocks[0].bytes);
    var ok, f := ReadSuper(bh);
    if !ok {
      return BadSuper, null;
    }
    var list := new FreeList.Empty();
    ok := list.Init(disk, f.freeOffset, chain, whole);
    if !ok {
      return BadFreeList, null;
    }
    ListSound(disk.blocks, disk.bs, f, d);
    fs := Assemble(disk, list, f, d);
    KeptParts(disk.blocks, disk.bs, f, d);
    FindRoot(fs, f.rootId, d.root);
    res := Mounted;
  }

  lemma ListSound(b: map<Sector, Block>, bs: nat, f: Fields, d: Stock)
    requires Kept(b, bs, f, d)
    ensures Apart(d.exts) && 0 !in Cover(d.exts)
  {
  }
}
