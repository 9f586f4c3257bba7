// The inode index: insertion, lookup and modification (btree.c).

module BTrees {
  import opened Entries
  import opened Disks
  import opened FreeLists
  import opened BNodes
  import opened Trees
  import opened Layouts

  datatype Option<T> = None | Some(value: T)

  // Bug stands for a BUG() of the source: the allocator ran dry in the middle of a split.
  datatype Res = Ok | Duplicate | NoSpace | Bug

  // How far up a fresh key makes full nodes split: the number of splits on its search path,
  // and whether a separator still comes out at the top.
  ghost predicate Bubbles(t: Tree, k: nat, c: nat) {
    t.Br? ==> Rank(t.es, k) < |t.ks| && Bubbles(t.ks[Rank(t.es, k)], k, c) && |t.es| == c
  }

  ghost function Splits(t: Tree, k: nat, c: nat): nat {
    if t.Nil? || Rank(t.es, k) >= |t.ks| then 0 else
      Splits(t.ks[Rank(t.es, k)], k, c) + if Bubbles(t, k, c) then 1 else 0
  }

  // The nodes an insertion writes back: those whose child sends a separator up.
  ghost function Reworked(t: Tree, k: nat, c: nat): multiset<Sector> {
    if t.Nil? || Rank(t.es, k) >= |t.ks| then multiset{} else
      var kid := t.ks[Rank(t.es, k)];
      Reworked(kid, k, c) + if Bubbles(kid, k, c) then multiset{t.sec} else multiset{}
  }

  // A node with room stops this: nothing above it is written.
  lemma {:induction false} ReworkedStops(t: Tree, k: nat, c: nat)
    requires t.Br? && |t.ks| == |t.es| + 1
    ensures var kid := t.ks[Rank(t.es, k)];
      && (kid.Br? && |kid.es| < c ==> Reworked(t, k, c) == Reworked(kid, k, c))
      && (kid.Nil? ==> Reworked(t, k, c) == multiset{t.sec})
  {
  }

  lemma SameOffBoth(b: map<Sector, Block>, b1: map<Sector, Block>, b2: map<Sector, Block>, t: Tree, k: nat, c: nat,
                    av0: set<Sector>, av1: set<Sector>)
    requires t.Br? && Rank(t.es, k) < |t.ks| && av1 <= av0
    requires SameOff(b, b1, Reworked(t.ks[Rank(t.es, k)], k, c), av0)
    requires b2 == b1 || (Bubbles(t.ks[Rank(t.es, k)], k, c) && SameOff(b1, b2, multiset{t.sec}, av1))
    ensures SameOff(b, b2, Reworked(t, k, c), av0)
  {
  }

  // A freshly taken inode block outside the tree.
  ghost predicate Housed(b: map<Sector, Block>, av0: set<Sector>, av: set<Sector>, m: multiset<Sector>, out: Sector,
                         inode: Inode) {
    out in av0 && out !in av && out !in m && out != 0 && out in b && b[out] == InodeB(inode)
  }

  // What btree_insert answers, from the tree, the key and the number of free sectors.
  ghost function InsertResult(t: Tree, k: nat, blocks: nat, c: nat): Res {
    if Has(Flat(t), k) then Duplicate
    else if blocks <= 1 then NoSpace
    else if blocks <= 1 + Splits(t, k, c) then Bug
    else Ok
  }

  // A fresh key takes its inode block, a node per split and one more when the root splits.
  ghost function Needed(t: Tree, k: nat, c: nat): nat {
    1 + Splits(t, k, c) + if Bubbles(t, k, c) then 1 else 0
  }

  ghost function TopResult(t: Tree, k: nat, blocks: nat, c: nat): Res {
    if Has(Flat(t), k) then Duplicate
    else if blocks <= 1 then NoSpace
    else if blocks <= Needed(t, k, c) then Bug
    else Ok
  }

  ghost function Updated(m: map<nat, Inode>, k: nat, v: Option<Inode>): map<nat, Inode> {
    if v.Some? then m[k := v.value] else m
  }

  lemma NilHasNot(t: Tree, k: nat)
    requires Root(t) == 0 && (t.Br? ==> t.sec != 0)
    ensures !Has(Flat(t), k)
  {
  }

  // The inode block of an entry, and what rewriting it changes: that inode and nothing else.
  lemma HomeOf(b: map<Sector, Block>, s: seq<Entry>, m: multiset<Sector>, av: set<Sector>, at: Entry)
    requires Homes(b, s, m, av) && Sorted(s) && at in s
    ensures HomeAt(b, at.offset, m, av)
    ensures at.id in ToMap(s) && ToMap(s)[at.id] == at.offset
    ensures at.id in Inodes(b, s) && b[at.offset] == InodeB(Inodes(b, s)[at.id])
  {
    var i :| 0 <= i < |s| && s[i] == at;
    MapAt(s, i);
  }

  lemma HomesModify(b: map<Sector, Block>, s: seq<Entry>, m: multiset<Sector>, av: set<Sector>, at: Entry, v: Inode)
    requires Homes(b, s, m, av) && Sorted(s) && at in s
    ensures var b1 := b[at.offset := InodeB(v)];
      && Homes(b1, s, m, av) && Inodes(b1, s) == Inodes(b, s)[at.id := v]
      && SameOn(b, b1, m)
  {
    var b1 := b[at.offset := InodeB(v)];
    HomeOf(b, s, m, av, at);
    forall i | 0 <= i < |s| ensures HomeAt(b1, s[i].offset, m, av) { assert HomeAt(b, s[i].offset, m, av); }
    forall k | k in ToMap(s) && k != at.id ensures ToMap(s)[k] != at.offset {
      var i := MapOrigin(s, k);
      var j :| 0 <= j < |s| && s[j] == at;
    }
  }

  // Only inode blocks were rewritten.
  ghost predicate InodesOnly(b: map<Sector, Block>, b': map<Sector, Block>) {
    b'.Keys == b.Keys && forall x :: x in b && !b[x].InodeB? ==> b'[x] == b[x]
  }

  lemma SameOffFresh(b: map<Sector, Block>, b1: map<Sector, Block>, b2: map<Sector, Block>, foot: multiset<Sector>,
                     av0: set<Sector>, x: Sector)
    requires SameOff(b, b1, foot, av0) && x in av0 && x in b2 && b2 == b1[x := b2[x]]
    ensures SameOff(b, b2, foot, av0)
  {
  }

  lemma InodesKey(b: map<Sector, Block>, s: seq<Entry>, m: multiset<Sector>, av: set<Sector>, k: nat)
    requires Homes(b, s, m, av)
    ensures k in Inodes(b, s) <==> Has(s, k)
  {
    MapKeys(s, k);
    if k in ToMap(s) {
      var i := MapOrigin(s, k);
      assert HomeAt(b, s[i].offset, m, av);
    }
  }

  lemma SameOffRefl(b: map<Sector, Block>, foot: multiset<Sector>, av: set<Sector>)
    ensures SameOff(b, b, foot, av) && FreeKept(b, b, av)
  {
  }

  // The base case leaves a separator without a right neighbour.
  lemma PlacedInode(b: map<Sector, Block>, av0: set<Sector>, t: Tree, h: nat, m: int, c: nat, b1: map<Sector, Block>,
                    av: set<Sector>, out: Sector, inode: Inode, res: Res, blocks: nat)
    requires Stored(b, av0, t, h, m, c) && Root(t) == 0 && inode.ino != 0 && av <= av0
    requires res == if blocks <= 1 then NoSpace else Ok
    requires res.NoSpace? ==> b1 == b
    requires res.Ok? ==> out != 0 && out in av0 && out !in av && b1 == b[out := InodeB(inode)]
    ensures SameOff(b, b1, Secs(t), av0) && FreeKept(b, b1, av) && res == InsertResult(t, inode.ino, blocks, c)
    ensures SameOff(b, b1, Reworked(t, inode.ino, c), av0)
    ensures Splits(t, inode.ino, c) == 0 && Bubbles(t, inode.ino, c)
    ensures res.Ok? ==>
      var e := Entry(inode.ino, out);
      && Grown(b1, av, t, e, h, m, c, av0, Nil, Bubble(e, 0), Nil)
      && Housed(b1, av0, av, Secs(Nil) + Secs(Nil), out, inode)
  {
    StoredHeight(b, av0, t, h, m, c);
    assert Flat(Nil) + [Entry(inode.ino, out)] + Flat(Nil) == Ins(Flat(t), Entry(inode.ino, out));
  }

  // One level of the search path: full nodes above a bubbling child split in turn.
  lemma SplitsStep(b: map<Sector, Block>, av: set<Sector>, t: Tree, h: nat, m: int, c: nat, k: nat, blocks: nat)
    requires Stored(b, av, t, h, m, c) && t.Br?
    requires var i := Rank(t.es, k); i < |t.es| ==> t.es[i].id != k
    ensures |t.ks| == |t.es| + 1
    ensures var kid := t.ks[Rank(t.es, k)];
      && (Bubbles(t, k, c) <==> Bubbles(kid, k, c) && |t.es| == c)
      && Splits(t, k, c) == Splits(kid, k, c) + (if Bubbles(t, k, c) then 1 else 0)
      && (InsertResult(kid, k, blocks, c) != Ok ==> InsertResult(t, k, blocks, c) == InsertResult(kid, k, blocks, c))
      && var stuck := Bubbles(t, k, c) && blocks <= 2 + Splits(kid, k, c);
         InsertResult(kid, k, blocks, c) == Ok ==> InsertResult(t, k, blocks, c) == if stuck then Bug else Ok
  {
    StoredHeight(b, av, t, h, m, c);
    StoredKid(b, av, t, h, m, c, k, Rank(t.es, k));
  }

  lemma SameOffTrans(b: map<Sector, Block>, b1: map<Sector, Block>, b2: map<Sector, Block>, t: Tree, av0: set<Sector>,
                     av1: set<Sector>, av2: set<Sector>)
    requires t.Br? && SameOff(b, b1, Secs(t), av0) && SameOff(b1, b2, multiset{t.sec}, av1) && av2 <= av1 <= av0
    requires FreeKept(b, b1, av1) && FreeKept(b1, b2, av2)
    ensures SameOff(b, b2, Secs(t), av0) && SameOff(b1, b2, Secs(t), av1) && FreeKept(b, b2, av2)
  {
  }

  // The new inode block stays clear of everything the levels above do.
  lemma HousedOn(b: map<Sector, Block>, b': map<Sector, Block>, av0: set<Sector>, av: set<Sector>, av': set<Sector>,
                 t: multiset<Sector>, m: multiset<Sector>, m': multiset<Sector>, out: Sector, inode: Inode)
    requires Housed(b, av0, av, m, out, inode) && Lone(t, av0) && av' <= av
    requires (Within(m', t + m, av) || Within(m', m, av)) && SameOff(b, b', t, av)
    ensures Housed(b', av0, av', m', out, inode)
  {
  }

  class BTree {
    const c: nat
    const disk: Disk
    const free: FreeList
    var start: Sector
    ghost var tree: Tree
    ghost var height: nat

    ghost predicate Valid()
      reads this, disk, free, free.spine
    {
      && free.Valid() && 2 <= c && c % 2 == 0 && start == Root(tree)
      && Stored(disk.blocks, free.Avail(), tree, height, 1, c)
      && Homes(disk.blocks, Flat(tree), Secs(tree), free.Avail())
    }

    // The index this tree stands for: inode number to inode.
    ghost function Index(): map<nat, Inode>
      reads this, disk
    {
      Inodes(disk.blocks, Flat(tree))
    }

    // spfs_btree_init with the root the super block names.
    constructor Load(c: nat, disk: Disk, free: FreeList, start: Sector, ghost tree: Tree, ghost height: nat)
      requires free.Valid() && 2 <= c && c % 2 == 0 && start == Root(tree)
      requires Stored(disk.blocks, free.Avail(), tree, height, 1, c)
      requires Homes(disk.blocks, Flat(tree), Secs(tree), free.Avail())
      ensures Valid() && Index() == Inodes(disk.blocks, Flat(tree)) && this.c == c && this.disk == disk
      ensures this.free == free
      ensures this.tree == tree && this.height == height
    {
      this.c, this.disk, this.free, this.start := c, disk, free, start;
      this.tree, this.height := tree, height;
    }

    // spfs_btree_insert
    method SpfsInsert(inode: Inode) returns (res: Res)
      requires Valid() && inode.ino != 0
      modifies this`start, this`tree, this`height, disk, free`blocks, free.spine
      ensures res == TopResult(old(tree), inode.ino, old(free.blocks), c)
      ensures !res.Bug? ==> Valid()
      ensures res.Duplicate? || res.NoSpace? ==>
        && disk.blocks == old(disk.blocks) && start == old(start) && tree == old(tree)
        && free.Avail() == old(free.Avail()) && free.blocks == old(free.blocks)
      ensures res.Duplicate? <==> inode.ino in old(Index())
      ensures res.NoSpace? <==> inode.ino !in old(Index()) && old(free.blocks) <= 1
      ensures res.Ok? ==> Index() == old(Index())[inode.ino := inode]
      ensures res.Ok? ==> free.blocks == old(free.blocks) - Needed(old(tree), inode.ino, c)
      ensures SameOff(old(disk.blocks), disk.blocks, old(Secs(tree)), old(free.Avail()))
      ensures SameOff(old(disk.blocks), disk.blocks, Reworked(old(tree), inode.ino, c), old(free.Avail()))
      ensures free.Avail() <= old(free.Avail()) && FreeKept(old(disk.blocks), disk.blocks, free.Avail())
    {
      hide FreeList.Avail, FreeList.Valid, Flat, Secs, Rank, Shape, Rep, Sorted, Above, Homes, Inodes, Ins, Has, Lone,
        Within, Roots, SameOff, Splits, Bubbles, Reworked;
      ghost var b0, av0, f0 := disk.blocks, free.Avail(), Flat(tree);
      InodesKey(b0, f0, Secs(tree), av0, inode.ino);
      var up, out;
      ghost var l, r;
      res, up, out, l, r := Insert(start, inode, tree, height, 1);
      if res == Ok {
        ghost var e := Entry(inode.ino, out);
        ghost var b1, av1 := disk.blocks, free.Avail();
        ghost var t := tree;
        InsSorted(f0, e);
        InsAbove(f0, e);
        InodesIns(b0, b1, f0, Secs(t), av0, e, inode);
        if up.Active() {
          var ok := AllocRoot(up);
          if !ok {
            return Bug;
          }
          NewRoot(b1, av1, t, e, height, 1, c, av0, l, up, r, start);
          WithinNotIn(Secs(Br(start, [up.entry], [l, r])), Secs(l) + Secs(r), av1, out);
          tree, height := Br(start, [up.entry], [l, r]), height + 1;
          SameOffFresh(b0, b1, disk.blocks, Secs(t), av0, start);
          SameOffFresh(b0, b1, disk.blocks, Reworked(t, inode.ino, c), av0, start);
        } else {
          tree := l;
          NilSecs(l);
        }
        InodesIns(b0, disk.blocks, f0, Secs(t), av0, e, inode);
        HomesIns(b0, disk.blocks, f0, Secs(t), av0, Secs(tree), free.Avail(), e, inode);
      }
    }

    // spfs_btree_modify: 1 when the key is absent, 0 after the callback saw the inode; the
    // callback answers with the inode to write back, or None when it altered nothing.
    method SpfsModify(ino: nat, cb: Inode -> Option<Inode>) returns (res: nat, seen: Option<Inode>, ghost visits: nat)
      requires Valid()
      modifies disk
      ensures Valid() && visits <= height
      ensures res == (if ino in old(Index()) then 0 else 1)
      ensures seen == (if ino in old(Index()) then Some(old(Index())[ino]) else None)
      ensures Index() == match seen case None => old(Index()) case Some(i) => Updated(old(Index()), ino, cb(i))
      ensures disk.blocks == old(disk.blocks) ||
        (ino in ToMap(Flat(tree)) && ino in Index()
         && disk.blocks == old(disk.blocks)[ToMap(Flat(tree))[ino] := InodeB(Index()[ino])])
      ensures (seen.Some? ==> cb(seen.value).None?) ==> disk.blocks == old(disk.blocks)
      ensures InodesOnly(old(disk.blocks), disk.blocks)
    {
      hide FreeList.Avail, FreeList.Valid, Flat, Secs, Rank, Rep, Shape, Sorted, Above, Homes, Inodes, Has, Lone,
        Roots, BNode.View, Updated;
      var offset := start;
      visits := 0;
      ghost var b0, av := disk.blocks, free.Avail();
      ghost var cur: Tree, h: nat, m: nat := tree, height, 1;
      InodesKey(b0, Flat(tree), Secs(tree), av, ino);
      while offset != 0
        invariant Stored(disk.blocks, free.Avail(), cur, h, m, c) && offset == Root(cur)
        invariant disk.blocks == b0 && free.Avail() == av && Valid()
        invariant Has(Flat(tree), ino) <==> Has(Flat(cur), ino)
        invariant forall e :: e in Flat(cur) ==> e in Flat(tree)
        invariant visits + h == height
        decreases h
      {
        var buf, idx, hit, at, child := Probe(offset, ino, cur, h, m);
        visits := visits + 1;
        if hit {
          StoredHit(b0, av, cur, h, m, c, idx);
          res, seen := VisitEntry(at, cb);
          return;
        }
        StoredKid(b0, av, cur, h, m, c, ino, idx);
        cur, h, m := cur.ks[idx], h - 1, c / 2;
        offset := child;
      }
      StoredHeight(b0, av, cur, h, m, c);
      NilHasNot(cur, ino);
      return 1, None, visits;
    }

    // btree_visit_entry
    method VisitEntry(at: Entry, cb: Inode -> Option<Inode>) returns (res: nat, seen: Option<Inode>)
      requires Valid() && at in Flat(tree)
      modifies disk
      ensures Valid() && res == 0 && at.id in old(Index()) && seen == Some(old(Index())[at.id])
      ensures Index() == Updated(old(Index()), at.id, cb(seen.value))
      ensures cb(seen.value).None? ==> disk.blocks == old(disk.blocks)
      ensures InodesOnly(old(disk.blocks), disk.blocks)
      ensures cb(seen.value).Some? ==>
        at.id in ToMap(Flat(tree)) && at.id in Index()
        && disk.blocks == old(disk.blocks)[ToMap(Flat(tree))[at.id] := InodeB(Index()[at.id])]
    {
      hide FreeList.Avail, FreeList.Valid, Flat, Secs, Rank, Rep, Shape, Sorted, Above, Homes, Inodes, Has, Lone,
        Roots;
      ghost var b0, av, f := disk.blocks, free.Avail(), Flat(tree);
      HomeOf(b0, f, Secs(tree), av, at);
      var cur := disk.blocks[at.offset].inode;
      seen := Some(cur);
      res := 0;
      var v := cb(cur);
      if v.Some? {
        disk.blocks := disk.blocks[at.offset := InodeB(v.value)];
        HomesModify(b0, f, Secs(tree), av, at, v.value);
        RepFrame(b0, disk.blocks, tree);
      }
    }

    // spfs_btree_lookup: a modify whose callback never asks for a write-back.
    method SpfsLookup(ino: nat) returns (res: nat, found: Option<Inode>)
      requires Valid()
      modifies disk
      ensures Valid() && disk.blocks == old(disk.blocks) && Index() == old(Index())
      ensures res == (if ino in Index() then 0 else 1)
      ensures found == (if ino in Index() then Some(Index()[ino]) else None)
    {
      ghost var visits;
      res, found, visits := SpfsModify(ino, (i: Inode) => None);
    }

    // bnode_alloc_root
    method AllocRoot(bub: Bubble) returns (ok: bool)
      requires free.Valid() && 1 <= c
      modifies this`start, disk, free`blocks, free.spine
      ensures free.Valid() && ok == (old(free.blocks) > 1)
      ensures ok ==>
        && start != 0 && start in old(free.Avail()) && free.Avail() == old(free.Avail()) - {start}
        && free.blocks == old(free.blocks) - 1
        && disk.blocks == old(disk.blocks)[start := NodeB(Node([bub.entry], [old(start), bub.greater]))]
      ensures !ok ==> disk.blocks == old(disk.blocks) && free.Avail() == old(free.Avail())
    {
      hide FreeList.Avail, FreeList.Valid, FreeList.Exts, BNode.View, Rank, Allocated;
      var less := start;
      var root := free.AllocOne();
      if root == 0 {
        return false;
      }
      var buf := new BNode.Make(c);
      buf.SetChild(0, less);
      assert buf.View().ch == [less] && buf.View().es == [];
      InsEmpty(less, bub.entry, bub.greater);
      ok := buf.BinInsert(bub.entry, bub.greater);
      disk.blocks := disk.blocks[root := NodeB(buf.View())];
      start := root;
    }

    // Reading a node and searching it, as btree_insert, spfs_btree_modify and take all begin.
    method Probe(s: Sector, key: nat, ghost t: Tree, ghost h: nat, ghost m: nat)
      returns (buf: BNode, idx: nat, hit: bool, at: Entry, child: Sector)
      requires s == Root(t) && s != 0 && Stored(disk.blocks, free.Avail(), t, h, m, c)
      ensures fresh(buf) && fresh(buf.entries) && fresh(buf.children) && buf.Valid() && buf.c == c
      ensures buf.View() == Node(t.es, Roots(t.ks))
      ensures h > 0 && t.Br? && idx == Rank(t.es, key) < |t.ks|
      ensures hit == (idx < |t.es| && t.es[idx].id == key) && (hit ==> at == t.es[idx])
      ensures child == Root(t.ks[idx])
    {
      hide BNode.View, Rank, Stored, Rep, Sorted, FreeList.Avail;
      assert h > 0 by { StoredHeight(disk.blocks, free.Avail(), t, h, m, c); }
      StoredNode(disk.blocks, free.Avail(), t, h, m, c);
      buf := new BNode.Parse(c, disk.blocks[s].node);
      idx := buf.BinFindGte(key);
      hit, at := false, Entry(0, 0);
      if idx < buf.length {
        at := buf.GetEntry(idx);
        hit := at.id == key;
      }
      child := buf.GetChild(idx);
    }

    // btree_insert
    method Insert(s: Sector, inode: Inode, ghost t: Tree, ghost h: nat, ghost m: nat)
      returns (res: Res, up: Bubble, out: Sector, ghost l: Tree, ghost r: Tree)
      requires free.Valid() && 2 <= c && c % 2 == 0 && m <= c / 2 && inode.ino != 0
      requires s == Root(t) && Stored(disk.blocks, free.Avail(), t, h, m, c)
      modifies disk, free`blocks, free.spine
      ensures free.Valid() && free.Avail() <= old(free.Avail())
      ensures SameOff(old(disk.blocks), disk.blocks, Secs(t), old(free.Avail()))
      ensures SameOff(old(disk.blocks), disk.blocks, Reworked(t, inode.ino, c), old(free.Avail()))
      ensures FreeKept(old(disk.blocks), disk.blocks, free.Avail())
      ensures res == InsertResult(t, inode.ino, old(free.blocks), c)
      ensures res.Duplicate? || res.NoSpace? ==>
        && up == NO_BUBBLE && disk.blocks == old(disk.blocks)
        && free.Avail() == old(free.Avail()) && free.blocks == old(free.blocks)
      ensures res.Duplicate? ==> Entry(inode.ino, out) in Flat(t)
      ensures res.Ok? ==>
        && Grown(disk.blocks, free.Avail(), t, Entry(inode.ino, out), h, m, c, old(free.Avail()), l, up, r)
        && Housed(disk.blocks, old(free.Avail()), free.Avail(), Secs(l) + Secs(r), out, inode)
        && free.blocks == old(free.blocks) - 1 - Splits(t, inode.ino, c)
        && (up.Active() <==> Bubbles(t, inode.ino, c))
      decreases h
    {
      hide BNode.View, Rank, SameOff, FreeKept, Rep, Shape, Sorted, Has, Flat, Secs, Lone, Within, Housed, Roots,
        NodeIns, FreeList.Avail, FreeList.Valid, FreeList.Exts, Splits, Bubbles, Reworked,
        Grown;
      ghost var b0, av0, n0 := disk.blocks, free.Avail(), free.blocks;
      if s == 0 {
        res, up, out := PlaceInode(inode);
        l, r := Nil, Nil;
        PlacedInode(b0, av0, t, h, m, c, disk.blocks, free.Avail(), out, inode, res, n0);
        return;
      }
      var buf, idx, hit, at, child := Probe(s, inode.ino, t, h, m);
      if hit {
        StoredHit(b0, av0, t, h, m, c, idx);
        SameOffRefl(b0, Secs(t), av0);
        SameOffRefl(b0, Reworked(t, inode.ino, c), av0);
        return Duplicate, NO_BUBBLE, at.offset, t, Nil;
      }
      StoredKid(b0, av0, t, h, m, c, inode.ino, idx);
      ghost var k, g;
      res, up, out, k, g := Insert(child, inode, t.ks[idx], h - 1, c / 2);
      ghost var e := Entry(inode.ino, out);
      StoredFrame(b0, disk.blocks, t, idx, av0, h, m, c);
      SplitsStep(b0, av0, t, h, m, c, inode.ino, n0);
      SameOffBoth(b0, disk.blocks, disk.blocks, t, inode.ino, c, av0, free.Avail());
      if res != Ok {
        l, r := t, Nil;
        return;
      }
      ghost var b1, av1 := disk.blocks, free.Avail();
      if !up.Active() {
        GrownQuiet(b1, av1, t.ks[idx], e, h - 1, c / 2, c, av0, k, up, g);
        StepQuiet(b0, b1, av0, av1, t, idx, e, h, m, c, k);
        l, r := Exchanged(t, idx, k), Nil;
        HousedOn(b1, b1, av0, av1, av1, Secs(t), Secs(k) + Secs(g), Secs(l) + Secs(r), out, inode);
      } else {
        StepSwell(b0, b1, av0, av1, t, idx, e, h, m, c, k, up, g);
        ghost var sw := Swollen(t, idx, k, up.entry, g);
        res, up, l, r := Absorb(s, buf, up, t, sw, e, h, m, av0);
        SameOffTrans(b0, b1, disk.blocks, t, av0, av1, free.Avail());
        SameOffBoth(b0, b1, disk.blocks, t, inode.ino, c, av0, av1);
        if res == Ok {
          HousedOn(b1, b1, av0, av1, av1, Secs(t), Secs(k) + Secs(g), Secs(sw), out, inode);
          HousedOn(b1, disk.blocks, av0, av1, free.Avail(), Secs(t), Secs(sw), Secs(l) + Secs(r), out, inode);
        }
      }
    }

    // btree_fixup and the write-back of the node.
    method Absorb(s: Sector, buf: BNode, bub: Bubble, ghost t: Tree, ghost sw: Tree, ghost e: Entry, ghost h: nat,
                  ghost m: nat, ghost av0: set<Sector>)
      returns (res: Res, up: Bubble, ghost l: Tree, ghost r: Tree)
      requires free.Valid() && buf.Valid() && c == buf.c && 2 <= c && c % 2 == 0 && bub.Active() && h > 0
      requires t.Br? && sw.Br? && s == sw.sec == t.sec != 0 && s in disk.blocks && |sw.es| == buf.length + 1
      requires |sw.ks| == |sw.es| + 1
      requires Sorted(buf.View().es) && !Has(buf.View().es, bub.entry.id) && m <= |sw.es|
      requires NodeIns(buf.View(), bub.entry, bub.greater) == Node(sw.es, Roots(sw.ks))
      requires RepAll(disk.blocks, sw.ks) && ShapeAll(sw.ks, h - 1, c)
      requires Flat(sw) == Ins(Flat(t), e) && Above(Flat(sw), 0)
      requires Lone(Secs(sw), free.Avail()) && Within(Secs(sw), Secs(t), av0) && free.Avail() <= av0
      modifies disk, free`blocks, free.spine, buf, buf.entries, buf.children
      ensures free.Valid() && free.Avail() <= old(free.Avail())
      ensures res == if old(buf.length) == c && old(free.blocks) <= 1 then Bug else Ok
      ensures SameOff(old(disk.blocks), disk.blocks, multiset{s}, old(free.Avail()))
      ensures FreeKept(old(disk.blocks), disk.blocks, free.Avail())
      ensures res.Ok? ==>
        && Grown(disk.blocks, free.Avail(), t, e, h, m, c, av0, l, up, r)
        && Within(Secs(l) + Secs(r), Secs(sw), old(free.Avail()))
        && up.Active() == (old(buf.length) == c)
        && free.blocks == old(free.blocks) - if up.Active() then 1 else 0
    {
      hide BNode.View, Rank, Rep, Shape, Sorted, Has, Flat, Secs, Lone, Within, Roots, NodeIns, Cut, Half, Grown,
        FreeList.Valid, FreeList.Avail, Ins;
      ghost var b1, av1 := disk.blocks, free.Avail();
      ghost var full := buf.length == c;
      l, r := sw, Nil;
      LoneRoot(sw, av1);
      res, up := FixUp(buf, bub);
      if res == Ok {
        disk.blocks := disk.blocks[s := NodeB(buf.View())];
        if !full {
          StepFits(b1, av1, t, sw, e, h, m, c, av0);
        } else {
          StepSplits(b1, av1, t, sw, e, h, m, c, av0, up.greater);
          l, r := LeftOf(sw, c / 2), RightOf(sw, c / 2, up.greater);
        }
      }
    }

    // The base case of btree_insert: the inode gets a block of its own.
    method PlaceInode(inode: Inode) returns (res: Res, up: Bubble, out: Sector)
      requires free.Valid() && inode.ino != 0
      modifies disk, free`blocks, free.spine
      ensures free.Valid() && free.Avail() <= old(free.Avail())
      ensures res == if old(free.blocks) <= 1 then NoSpace else Ok
      ensures res.NoSpace? ==>
        && up == NO_BUBBLE && disk.blocks == old(disk.blocks)
        && free.Avail() == old(free.Avail()) && free.blocks == old(free.blocks)
      ensures res.Ok? ==>
        && up == Bubble(Entry(inode.ino, out), 0) && out != 0 && out in old(free.Avail()) && out !in free.Avail()
        && disk.blocks == old(disk.blocks)[out := InodeB(inode)]
        && free.blocks == old(free.blocks) - 1
    {
      hide FreeList.Avail, FreeList.Valid;
      var page := free.AllocOne();
      if page == 0 {
        return NoSpace, NO_BUBBLE, 0;
      }
      disk.blocks := disk.blocks[page := InodeB(inode)];
      return Ok, Bubble(Entry(inode.ino, page), 0), page;
    }

    // btree_fixup: take the bubble in, or split the full node around the median.
    method FixUp(buf: BNode, bub: Bubble) returns (res: Res, up: Bubble)
      requires buf.Valid() && free.Valid() && c == buf.c && 2 <= c && c % 2 == 0
      requires Sorted(buf.View().es) && !Has(buf.View().es, bub.entry.id) && bub.Active()
      modifies disk, free`blocks, free.spine, buf, buf.entries, buf.children
      ensures buf.Valid() && free.Valid()
      ensures old(buf.length) < c ==>
        && res.Ok? && up == NO_BUBBLE && buf.View() == NodeIns(old(buf.View()), bub.entry, bub.greater)
        && disk.blocks == old(disk.blocks)
        && free.Avail() == old(free.Avail()) && free.blocks == old(free.blocks)
      ensures old(buf.length) == c && old(free.blocks) <= 1 ==>
        res.Bug? && disk.blocks == old(disk.blocks) && free.Avail() == old(free.Avail())
      ensures old(buf.length) == c && old(free.blocks) > 1 ==>
        var full := NodeIns(old(buf.View()), bub.entry, bub.greater);
        && res.Ok? && up.greater != 0 && up.greater in old(free.Avail())
        && free.Avail() == old(free.Avail()) - {up.greater} && free.blocks == old(free.blocks) - 1
        && buf.View() == Cut(full, c / 2) && up.entry == full.es[c / 2]
        && disk.blocks == old(disk.blocks)[up.greater := NodeB(Half(full, c / 2))]
    {
      hide BNode.View, Cut, Half, NodeIns, Rank, Carve, FreeList.Valid, FreeList.Exts, FreeList.Avail;
      ghost var n := buf.View();
      if buf.length < c {
        var ok := buf.BinInsert(bub.entry, bub.greater);
        return Ok, NO_BUBBLE;
      }
      var right := free.AllocOne();
      if right == 0 {
        return Bug, bub;
      }
      var rc := new BNode.Make(c);
      var med := Split(buf, bub, rc);
      disk.blocks := disk.blocks[right := NodeB(rc.View())];
      return Ok, Bubble(med, right);
    }

    // The splitting branch of btree_fixup on the two buffers.
    method Split(buf: BNode, bub: Bubble, rc: BNode) returns (med: Entry)
      requires buf.Valid() && rc.Valid() && c == buf.c == rc.c == buf.length && 2 <= c && c % 2 == 0
      requires buf != rc && buf.entries != rc.entries && buf.children != rc.children
      requires Sorted(buf.View().es) && !Has(buf.View().es, bub.entry.id) && rc.View() == Node([], [0])
      modifies buf, buf.entries, buf.children, rc, rc.entries, rc.children
      ensures buf.Valid() && rc.Valid()
      ensures var full := NodeIns(old(buf.View()), bub.entry, bub.greater);
        && buf.View() == Cut(full, c / 2) && med == full.es[c / 2] && rc.View() == Half(full, c / 2)
    {
      hide BNode.View, Cut, Tail, Half, Put, NodePut, Rank;
      var e, gt := bub.entry, bub.greater;
      ghost var n, m := buf.View(), c / 2;
      var inNode, idx := buf.Median(e);
      var pivot := e;
      if inNode { pivot := buf.GetEntry(idx); }
      MedianSide(n.es, e, m);
      buf.Partition(inNode, idx, e, rc);
      if !inNode {
        SplitMiddle(n, m, e, gt);
        rc.SetChild(0, gt);
        med := e;
      } else if e.id > pivot.id {
        med := SplitIntoRight(buf, rc, e, gt, n, m);
      } else {
        med := SplitIntoLeft(buf, rc, e, gt, n, m);
      }
    }

    // The new entry belongs right of the median, which is the last entry kept on the left.
    method SplitIntoRight(buf: BNode, rc: BNode, e: Entry, gt: Sector, ghost n: Node, ghost m: nat) returns (med: Entry)
      requires buf.Valid() && rc.Valid() && rc.c == |n.es|
      requires buf != rc && buf.entries != rc.entries && buf.children != rc.children
      requires |n.ch| == |n.es| + 1 && m < Rank(n.es, e.id) && Sorted(n.es) && !Has(n.es, e.id)
      requires buf.View() == Cut(n, m + 1) && rc.View() == Tail(n, m + 1, |n.es|)
      modifies buf`length, rc, rc.entries, rc.children
      ensures buf.Valid() && rc.Valid()
      ensures var full := NodeIns(n, e, gt);
        buf.View() == Cut(full, m) && med == full.es[m] && rc.View() == Half(full, m)
    {
      hide BNode.View, Cut, Tail, Half, Put, NodePut, Rank;
      ghost var r := Rank(n.es, e.id);
      SplitRight(n, r, e, gt, m);
      RankTail(n, e, m + 1);
      var ok := rc.BinInsert(e, gt);
      med := buf.Extract(rc);
    }

    // The new entry belongs left of the median, which is then the last entry on the left.
    method SplitIntoLeft(buf: BNode, rc: BNode, e: Entry, gt: Sector, ghost n: Node, ghost m: nat) returns (med: Entry)
      requires buf.Valid() && rc.Valid() && buf.c == |n.es|
      requires buf != rc && buf.entries != rc.entries && buf.children != rc.children
      requires |n.ch| == |n.es| + 1 && Rank(n.es, e.id) < m < |n.es| && Sorted(n.es) && !Has(n.es, e.id)
      requires buf.View() == Cut(n, m) && rc.View() == Tail(n, m, |n.es|)
      modifies buf, buf.entries, buf.children, rc.children
      ensures buf.Valid() && rc.Valid()
      ensures var full := NodeIns(n, e, gt);
        buf.View() == Cut(full, m) && med == full.es[m] && rc.View() == Half(full, m)
    {
      hide BNode.View, Cut, Tail, Half, Put, NodePut, Rank;
      ghost var r := Rank(n.es, e.id);
      SplitLeft(n, r, e, gt, m);
      RankHead(n, e, m);
      var ok := buf.BinInsert(e, gt);
      med := buf.Extract(rc);
    }
  }

  // The rank of an entry among the entries right, or left, of a cut.
  lemma RankTail(n: Node, e: Entry, k: nat)
    requires |n.ch| == |n.es| + 1 && k <= Rank(n.es, e.id) && Sorted(n.es) && !Has(n.es, e.id)
    ensures var t := Tail(n, k, |n.es|).es;
      Rank(t, e.id) == Rank(n.es, e.id) - k && Sorted(t) && !Has(t, e.id)
  {
    var t := n.es[k..];
    TailAll(n, k);
    RankIs(t, e.id, Rank(n.es, e.id) - k);
    HasRank(n.es, e.id);
    HasRank(t, e.id);
  }

  lemma RankHead(n: Node, e: Entry, k: nat)
    requires |n.ch| == |n.es| + 1 && Rank(n.es, e.id) < k <= |n.es| && Sorted(n.es) && !Has(n.es, e.id)
    ensures var t := Cut(n, k).es;
      Rank(t, e.id) == Rank(n.es, e.id) && Sorted(t) && !Has(t, e.id)
  {
    var t := n.es[..k];
    RankIs(t, e.id, Rank(n.es, e.id));
    HasRank(n.es, e.id);
    HasRank(t, e.id);
  }

  // On which side of an entry of the node the new entry falls.
  lemma MedianSide(es: seq<Entry>, e: Entry, m: nat)
    requires 0 < m < |es| && Sorted(es) && !Has(es, e.id)
    ensures Rank(es, e.id) > m ==> e.id > es[m].id
    ensures Rank(es, e.id) < m ==> e.id < es[m - 1].id
  {
    HasRank(es, e.id);
  }
}
