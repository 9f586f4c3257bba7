// The mounted file system's shared state (struct spfs_super_block) and what every operation
// keeps of it.

module Supers {
  import opened Entries
  import opened Disks
  import opened FreeLists
  import opened Words
  import opened Extents
  import opened Trees
  import opened Layouts
  import opened BTrees

  const MIN_BLOCK_SIZE := 512

  ghost function Zeros(n: nat): seq<Byte> {
    seq(n, i => 0)
  }

  // Sectors that were never handed out are as the device came: zero.
  ghost predicate Clean(b: map<Sector, Block>, av: set<Sector>, bs: nat) {
    forall x :: x in av ==> x in b && b[x] == Raw(Zeros(bs))
  }

  // The device is small enough for its byte offsets to fit 32 bits.
  ghost predicate Small(b: map<Sector, Block>, bs: nat) {
    forall x :: x in b ==> (x + 1) * bs <= TWO_32
  }

  class SuperBlock {
    const disk: Disk
    const free: FreeList
    const tree: BTree

    constructor (disk: Disk, free: FreeList, tree: BTree)
      ensures this.disk == disk && this.free == free && this.tree == tree
    {
      this.disk, this.free, this.tree := disk, free, tree;
    }

    ghost predicate Valid()
      reads this, tree, tree.disk, tree.free, tree.free.spine
    {
      && tree.disk == disk && tree.free == free && tree.Valid() && disk.bs >= MIN_BLOCK_SIZE
      && Clean(disk.blocks, free.Avail(), disk.bs) && Small(disk.blocks, disk.bs)
    }

    // spfs_file_extent_alloc
    method FileExtentAlloc(blocks: nat) returns (result: Sector)
      requires Valid() && blocks > 0
      modifies disk, free`blocks, free.spine
      ensures Valid() && tree.Index() == old(tree.Index()) && disk.blocks.Keys == old(disk.blocks).Keys
      ensures result == Carve(old(free.Exts()), blocks).0 && free.Exts() == Carve(old(free.Exts()), blocks).1
      ensures result == 0 ==> disk.blocks == old(disk.blocks) && free.Avail() == old(free.Avail())
      ensures result != 0 ==>
        && Run(result, blocks) <= old(free.Avail()) && free.Avail() == old(free.Avail()) - Run(result, blocks)
        && ExtentAt(disk.blocks, Ext(result, blocks, 0), 0, disk.bs)
        && result in disk.blocks && disk.blocks[result].Raw?
        && disk.blocks == old(disk.blocks)[result := disk.blocks[result]]
    {
      hide FreeList.Avail, FreeList.Valid, FreeList.Exts, Carve, Stored, Homes, Flat, Secs, Inodes, ExtentAt,
        Buffer.Bytes, Clean, Small, RawOnly;
      ghost var b0, av0, bs := disk.blocks, free.Avail(), disk.bs;
      result := free.Alloc(blocks);
      if result == 0 {
        return;
      }
      RunClean(b0, av0, bs, result, blocks);
      var bh := new Buffer.Read(disk.blocks[result].bytes);
      MakeFileExtent(bh, Header(0, blocks, 0));
      disk.blocks := disk.blocks[result := Raw(bh.Bytes())];
      FreshExtent(b0, disk.blocks, av0, bs, result, blocks);
      TreeAside(b0, disk.blocks, av0, free.Avail(), tree.tree, tree.height, 1, tree.c);
    }

    // A raw sector in use goes back to the device.
    method WriteBack(x: Sector, bh: Buffer)
      requires Valid() && x in disk.blocks && disk.blocks[x].Raw? && x !in free.Avail()
      modifies disk
      ensures Valid() && tree.Index() == old(tree.Index())
      ensures disk.blocks == old(disk.blocks)[x := Raw(bh.Bytes())]
    {
      hide FreeList.Avail, FreeList.Valid, FreeList.Exts, Stored, Homes, Flat, Secs, Inodes, Buffer.Bytes;
      ghost var b0 := disk.blocks;
      disk.blocks := disk.blocks[x := Raw(bh.Bytes())];
      TreeAside(b0, disk.blocks, free.Avail(), free.Avail(), tree.tree, tree.height, 1, tree.c);
    }

    // A single fresh sector, as the device came.
    method AllocSector() returns (result: Sector)
      requires Valid()
      modifies free`blocks, free.spine
      ensures Valid() && tree.Index() == old(tree.Index()) && (result == 0 <==> old(free.blocks) <= 1)
      ensures Allocated(old(free.Exts()), 1, result, free.Exts())
      ensures result == 0 ==> free.Avail() == old(free.Avail()) && free.blocks == old(free.blocks)
      ensures result != 0 ==>
        && result in old(free.Avail()) && free.Avail() == old(free.Avail()) - {result}
        && free.blocks == old(free.blocks) - 1
        && result in disk.blocks && disk.blocks[result] == Raw(Zeros(disk.bs)) && result < TWO_32
    {
      hide FreeList.Avail, FreeList.Valid, FreeList.Exts, Stored, Homes, Flat, Secs, Inodes, Clean, Small, Zeros,
        Allocated;
      ghost var b0, av0, bs := disk.blocks, free.Avail(), disk.bs;
      result := free.AllocOne();
      if result != 0 {
        RunOne(result);
        RunClean(b0, av0, bs, result, 1);
        CleanLess(b0, av0, free.Avail(), bs);
      }
      TreeAside(b0, b0, av0, free.Avail(), tree.tree, tree.height, 1, tree.c);
    }
  }

  lemma CleanLess(b: map<Sector, Block>, av: set<Sector>, av': set<Sector>, bs: nat)
    requires Clean(b, av, bs) && av' <= av
    ensures Clean(b, av', bs)
  {
  }

  lemma RunClean(b: map<Sector, Block>, av: set<Sector>, bs: nat, r: Sector, n: nat)
    requires Clean(b, av, bs) && Small(b, bs) && Run(r, n) <= av && n > 0 && bs >= MIN_BLOCK_SIZE
    ensures Sized(b, r, n, bs) && r in av && r in b && b[r] == Raw(Zeros(bs)) && |Zeros(bs)| == bs
    ensures n * bs <= TWO_32 && n < TWO_32 && r < TWO_32
  {
    forall y | r <= y < r + n ensures y in av {
      assert InRun(y, r, n);
      assert y in Run(r, n);
    }
    var last := r + n - 1;
    assert last in av;
    MulLe(n, last + 1, bs);
    MulLe(1, bs, n);
    MulLe(r + 1, last + 1, bs);
    MulLe(1, bs, r + 1);
  }

  lemma FreshExtent(b: map<Sector, Block>, b': map<Sector, Block>, av: set<Sector>, bs: nat, r: Sector, n: nat)
    requires Clean(b, av, bs) && Small(b, bs) && Run(r, n) <= av && n > 0 && bs >= MIN_BLOCK_SIZE && r != 0
    requires r in b' && b'[r].Raw? && |b'[r].bytes| == bs && b' == b[r := b'[r]]
    requires HeaderIs(b'[r].bytes, Header(0, n, 0))
    ensures ExtentAt(b', Ext(r, n, 0), 0, bs) && RawOnly(b, b')
    ensures Clean(b', av - Run(r, n), bs) && Small(b', bs) && b'.Keys == b.Keys
  {
    RunClean(b, av, bs, r, n);
    assert InRun(r, r, n);
    assert n * bs >= bs by { MulLe(1, n, bs); }
  }
}
