// The block device behind sb_bread: total access to numbered sectors.

module Disks {
  import opened Entries

  type Byte = b: int | 0 <= b < 256

  // A decoded index node: entries in use and one more child sector than entries.
  datatype Node = Node(es: seq<Entry>, ch: seq<Sector>)

  // struct spfs_inode on disk, reduced to what the index and the file layer use.
  datatype Inode = Inode(ino: nat, capacity: nat, start: Sector)

  // struct spfs_free_node without its link: blocks sectors from start on.
  datatype Extent = Extent(start: Sector, blocks: nat)

  datatype Block =
    | NodeB(node: Node)
    | InodeB(inode: Inode)
    | FreeB(entries: seq<Extent>, next: Sector)
    | Raw(bytes: seq<Byte>)

  class Disk {
    const bs: nat
    var blocks: map<Sector, Block>

    constructor (bs: nat, blocks: map<Sector, Block>)
      ensures this.bs == bs && this.blocks == blocks
    {
      this.bs, this.blocks := bs, blocks;
    }
  }

  // Three node buffers going back to their sectors.
  function WriteThree(b: map<Sector, Block>, x: Sector, m: Node, y: Sector, n: Node, z: Sector,
                      o: Node): map<Sector, Block> {
    b[x := NodeB(m)][y := NodeB(n)][z := NodeB(o)]
  }

  // Sectors outside a footprint and outside the free space keep their blocks, and no sector
  // appears that was in neither.
  ghost predicate SameOff(b: map<Sector, Block>, b': map<Sector, Block>, foot: multiset<Sector>, av: set<Sector>) {
    && (forall x :: x in b && x !in foot && x !in av ==> x in b' && b'[x] == b[x])
    && (forall x :: x in b' ==> x in b || x in av)
  }

  // Sectors that are still free were not written.
  ghost predicate FreeKept(b: map<Sector, Block>, b': map<Sector, Block>, av: set<Sector>) {
    forall x :: x in av && x in b ==> x in b' && b'[x] == b[x]
  }

  // Only the named sectors were written.
  ghost predicate OnlyAt(b: map<Sector, Block>, b': map<Sector, Block>, w: set<Sector>) {
    b'.Keys == b.Keys && forall x :: x in b && x !in w ==> b'[x] == b[x]
  }

  lemma OnlyThen(b: map<Sector, Block>, b1: map<Sector, Block>, b2: map<Sector, Block>, w: set<Sector>,
                 w1: set<Sector>, w2: set<Sector>)
    requires OnlyAt(b, b1, w) && OnlyAt(b1, b2, w1) && w <= w2 && w1 <= w2
    ensures OnlyAt(b, b2, w2)
  {
  }
}
