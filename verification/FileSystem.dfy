// A mounted file system (sp.c): its operations refine a plain map from numbers to byte strings
// and lists of children.

module FileSystems {
  import opened Entries
  import opened Disks
  import opened FreeLists
  import opened Words
  import opened Streams
  import opened Chains
  import opened Trees
  import opened Layouts
  import opened BTrees
  import opened Supers
  import opened RegularFiles
  import opened Directories
  import opened Listings
  import opened Worlds
  import opened Runs

  ghost function FileObj(f: SpInode): Obj
    reads f
  {
    FileO(f.start, f.capacity, f.size, f.chain)
  }

  ghost function DirObj(d: SpDirectory): Obj
    reads d
  {
    DirO(d.start, d.capacity, d.blocks)
  }

  ghost function Values(b: map<Sector, Block>, objs: map<nat, Obj>): map<nat, Value> {
    map k | k in objs :: ValueOf(b, objs[k])
  }

  lemma ValuesStep(b: map<Sector, Block>, b': map<Sector, Block>, objs: map<nat, Obj>, k: nat, o: Obj, v: Value)
    requires OthersKept(b, b', objs, k) && ValueOf(b', o) == v
    ensures Values(b', objs[k := o]) == Values(b, objs)[k := v]
  {
  }

  // An operation on one file, seen on the values.
  lemma FileStep(b: map<Sector, Block>, b': map<Sector, Block>, av: set<Sector>, av': set<Sector>, bs: nat,
                 objs: map<nat, Obj>, k: nat, o: Obj, idx: map<nat, Inode>, idx': map<nat, Inode>, next: nat)
    requires Placed(b, av, bs, objs) && Agreed(objs, idx, next) && k in objs && objs[k].FileO? && o.FileO?
    requires FileAt(b', av', bs, o.start, o.capacity, o.size, o.chain)
    requires ChainSecs(o.chain) <= ChainSecs(objs[k].chain) + av
    requires Touched(b, b', av, av', ChainSecs(objs[k].chain))
    requires o.capacity == objs[k].capacity ==> o.start == objs[k].start
    requires k in idx
    requires idx' == if o.capacity == objs[k].capacity then idx else idx[k := Inode(idx[k].ino, o.capacity, o.start)]
    ensures Placed(b', av', bs, objs[k := o]) && Agreed(objs[k := o], idx', next)
    ensures Values(b', objs[k := o]) == Values(b, objs)[k := Content(FileBytes(b', o.chain, o.size))]
  {
    hide FileAt, ChainSecs, Touched, Values, Placed, OthersKept, FileBytes;
    assert ObjAt(b', av', bs, o) && Foot(o) == ChainSecs(o.chain);
    OneObject(b, b', av, av', bs, objs, k, o);
    ValuesStep(b, b', objs, k, o, ValueOf(b', o));
    AgreedFile(objs, idx, next, k, o, idx');
  }

  lemma AgreedFile(objs: map<nat, Obj>, idx: map<nat, Inode>, next: nat, k: nat, o: Obj, idx': map<nat, Inode>)
    requires Agreed(objs, idx, next) && k in objs && objs[k].FileO? && o.FileO?
    requires o.capacity == objs[k].capacity ==> o.start == objs[k].start
    requires k in idx
    requires idx' == if o.capacity == objs[k].capacity then idx else idx[k := Inode(idx[k].ino, o.capacity, o.start)]
    ensures Agreed(objs[k := o], idx', next)
  {
  }

  lemma FilePlaced(b: map<Sector, Block>, av: set<Sector>, bs: nat, objs: map<nat, Obj>, k: nat, idx: map<nat, Inode>,
                   next: nat)
    requires Placed(b, av, bs, objs) && Agreed(objs, idx, next) && k in objs && objs[k].FileO?
    ensures var o := objs[k]; FileAt(b, av, bs, o.start, o.capacity, o.size, o.chain) && k in idx
    ensures k in Values(b, objs)
    ensures Values(b, objs)[k] == Content(FileBytes(b, objs[k].chain, objs[k].size))
    ensures Values(b, objs)[k := Content(FileBytes(b, objs[k].chain, objs[k].size))] == Values(b, objs)
  {
    hide FileAt, FileBytes;
    assert ObjAt(b, av, bs, objs[k]);
  }

  // A new object under a number not yet in use.
  function Fresh(isDir: bool): Obj {
    if isDir then DirO(0, 0, []) else FileO(0, 0, 0, [])
  }

  lemma AgreedNew(objs: map<nat, Obj>, idx: map<nat, Inode>, next: nat)
    requires Agreed(objs, idx, next)
    ensures next !in objs && next !in idx && next > 0 && Agreed(objs, idx, next + 1)
  {
  }

  lemma AgreedAdd(objs: map<nat, Obj>, idx: map<nat, Inode>, next: nat, k: nat, isDir: bool)
    requires Agreed(objs, idx, next) && 0 < k < next && k !in idx
    ensures Agreed(objs[k := Fresh(isDir)], idx[k := Inode(k, 0, 0)], next)
    ensures isDir ==> Agreed(objs[k := Fresh(isDir)], idx, next)
  {
    var idx', objs' := idx[k := Inode(k, 0, 0)], objs[k := Fresh(isDir)];
    forall j | j in objs' && objs'[j].DirO? ensures Known(idx', Kids(objs'[j].blocks)) {
      if j != k { assert Known(idx, Kids(objs[j].blocks)); }
    }
    forall j | j in objs' && objs'[j].DirO? && isDir ensures Known(idx, Kids(objs'[j].blocks)) {
      if j != k { assert Known(idx, Kids(objs[j].blocks)); }
    }
  }

  // The index took a new inode, and the new object owns nothing yet.
  lemma InsertStep(b: map<Sector, Block>, b': map<Sector, Block>, av: set<Sector>, av': set<Sector>, bs: nat,
                   objs: map<nat, Obj>, t: Tree, k: nat, isDir: bool)
    requires Placed(b, av, bs, objs) && Rep(b, t) && SameOff(b, b', Secs(t), av) && av' <= av && k !in objs
    ensures Placed(b', av', bs, objs[k := Fresh(isDir)])
    ensures Values(b', objs[k := Fresh(isDir)]) == Values(b, objs)[k := Blank(isDir)]
  {
    hide Placed, OthersKept, Values, Rep, Secs;
    NewInode(b, b', av, av', bs, objs, t, k, Fresh(isDir));
    EmptyObj(b', av', bs, Fresh(isDir));
    ValuesStep(b, b', objs, k, Fresh(isDir), Blank(isDir));
  }

  // An operation on one directory, seen on the values.
  lemma DirStep(b: map<Sector, Block>, b': map<Sector, Block>, av: set<Sector>, av': set<Sector>, bs: nat,
                objs: map<nat, Obj>, k: nat, o: Obj, idx: map<nat, Inode>, next: nat)
    requires Placed(b, av, bs, objs) && Agreed(objs, idx, next) && k in objs && objs[k].DirO? && o.DirO?
    requires ObjAt(b', av', bs, o) && DirSecs(o.blocks) <= DirSecs(objs[k].blocks) + av
    requires Touched(b, b', av, av', DirSecs(objs[k].blocks)) && Known(idx, Kids(o.blocks))
    ensures Placed(b', av', bs, objs[k := o]) && Agreed(objs[k := o], idx, next)
    ensures Values(b', objs[k := o]) == Values(b, objs)[k := Members(Kids(o.blocks))]
  {
    hide ObjAt, DirSecs, Touched, Values, Placed, OthersKept;
    OneObject(b, b', av, av', bs, objs, k, o);
    ValuesStep(b, b', objs, k, o, ValueOf(b', o));
  }

  lemma DirPlaced(b: map<Sector, Block>, av: set<Sector>, bs: nat, objs: map<nat, Obj>, k: nat, idx: map<nat, Inode>,
                  next: nat)
    requires Placed(b, av, bs, objs) && Agreed(objs, idx, next) && k in objs && objs[k].DirO?
    ensures ObjAt(b, av, bs, objs[k]) && Known(idx, Kids(objs[k].blocks)) && Coherent(idx)
    ensures k in Values(b, objs) && Values(b, objs)[k] == Members(Kids(objs[k].blocks))
  {
  }

  lemma KnownMore(idx: map<nat, Inode>, kids: seq<nat>, k: nat)
    requires Known(idx, kids) && k in idx
    ensures Known(idx, kids + [k])
  {
  }

  // An object in place beside the others.
  ghost predicate Joins(b: map<Sector, Block>, av: set<Sector>, bs: nat, objs: map<nat, Obj>, o: Obj) {
    ObjAt(b, av, bs, o) && forall j :: j in objs ==> Foot(objs[j]) !! Foot(o)
  }

  lemma JoinStep(b: map<Sector, Block>, av: set<Sector>, bs: nat, objs: map<nat, Obj>, k: nat, i: Inode,
                 blocks: seq<DirBlk>, idx: map<nat, Inode>, next: nat)
    requires Placed(b, av, bs, objs) && Agreed(objs, idx, next) && k !in objs && k in idx && i == idx[k]
    requires Joins(b, av, bs, objs, DirO(i.start, i.capacity, blocks)) && Known(idx, Kids(blocks))
    ensures var o := DirO(i.start, i.capacity, blocks);
      && Placed(b, av, bs, objs[k := o]) && Agreed(objs[k := o], idx, next)
      && Values(b, objs[k := o]) == Values(b, objs)[k := Members(Kids(blocks))]
  {
    hide ObjAt, Foot, Kids;
  }

  // The shared state and the objects together, without the objects' identities.
  ghost predicate World(sb: SuperBlock, objs: map<nat, Obj>, next: nat)
    reads sb, sb.tree, sb.disk, sb.free, sb.free.spine, sb.tree.disk, sb.tree.free, sb.tree.free.spine
  {
    && sb.Valid() && sb.disk.bs >= ROOMY
    && Placed(sb.disk.blocks, sb.free.Avail(), sb.disk.bs, objs) && Agreed(objs, sb.tree.Index(), next)
  }

  lemma JoinWorld(sb: SuperBlock, objs: map<nat, Obj>, next: nat, k: nat, i: Inode, blocks: seq<DirBlk>)
    requires World(sb, objs, next) && k in sb.tree.Index() && i == sb.tree.Index()[k] && k !in objs
    requires Joins(sb.disk.blocks, sb.free.Avail(), sb.disk.bs, objs, DirO(i.start, i.capacity, blocks))
    requires Known(sb.tree.Index(), Kids(blocks))
    ensures var o := DirO(i.start, i.capacity, blocks);
      && World(sb, objs[k := o], next)
      && Values(sb.disk.blocks, objs[k := o]) == Values(sb.disk.blocks, objs)[k := Members(Kids(blocks))]
  {
    hide SuperBlock.Valid, FreeList.Avail, BTree.Index, Joins, Placed, Agreed, Values, Kids;
    JoinStep(sb.disk.blocks, sb.free.Avail(), sb.disk.bs, objs, k, i, blocks, sb.tree.Index(), next);
  }

  // What inserting a fresh number comes to, from the free and the needed sectors.
  function NewResult(blocks: nat, needed: nat): Res {
    if blocks <= 1 then NoSpace else if blocks <= needed then Bug else Ok
  }

  // Sectors of no index node, not free and not of the one object keep their blocks.
  ghost predicate Elsewhere(b: map<Sector, Block>, b': map<Sector, Block>, nodes: multiset<Sector>, av: set<Sector>,
                            own: set<Sector>)
  {
    forall x :: x in b && x !in nodes && x !in av && x !in own ==> x in b' && b'[x] == b[x]
  }

  lemma AsideSoFar(b: map<Sector, Block>, b1: map<Sector, Block>, nodes: multiset<Sector>, av: set<Sector>,
                   own: set<Sector>)
    requires SameOff(b, b1, nodes, av)
    ensures Elsewhere(b, b1, nodes, av, own)
  {
  }

  lemma CreateAside(b: map<Sector, Block>, b1: map<Sector, Block>, b2: map<Sector, Block>, nodes: multiset<Sector>,
                    av: set<Sector>, av1: set<Sector>, av2: set<Sector>, o: Obj, o': Obj)
    requires SameOff(b, b1, nodes, av) && av1 <= av && OwnOnly(b1, b2, av1, av2, o, o') && RawOnly(b1, b2)
    ensures Elsewhere(b, b2, nodes, av, Foot(o))
  {
    hide Foot;
  }

  // What creating an object in a directory of n children comes to: the insertion must succeed, and a
  // directory whose blocks are full needs one sector more and another left over.
  function MadeResult(blocks: nat, needed: nat, n: nat): Made {
    match NewResult(blocks, needed)
    case NoSpace => NoRoom
    case Bug => Halted
    case _ => if n % FULL == 0 && blocks <= needed + 1 then Unlinked else Created
  }

  lemma MadeWhen(blocks: nat, needed: nat, n: nat)
    requires needed > 0
    ensures MadeResult(blocks, needed, n) == NoRoom <==> blocks <= 1
    ensures MadeResult(blocks, needed, n) == Halted <==> 1 < blocks <= needed
    ensures MadeResult(blocks, needed, n) == Unlinked <==> blocks > 1 && blocks == needed + 1 && n % 100 == 0
  {
  }

  // When a write of input up to the position end succeeds: the capacity suffices, or the free
  // list has an extent of the least sufficient number n of blocks.
  ghost predicate WriteFits(input: seq<Byte>, end: nat, capacity: nat, bs: nat, exts: seq<Extent>, n: nat, ok: bool) {
    if input == [] || end <= capacity then ok
    else LeastBlocks(bs, capacity, end, n) && (ok <==> Carve(exts, n).0 != 0)
  }

  // An operation on an object o writes its sectors, sectors from the free space and inode blocks,
  // nothing else; and every sector that leaves the free space belongs to the object afterwards.
  ghost predicate OwnOnly(b: map<Sector, Block>, b': map<Sector, Block>, av: set<Sector>, av': set<Sector>, o: Obj,
                          o': Obj)
  {
    Touched(b, b', av, av', Foot(o)) && Foot(o') + av' == Foot(o) + av
  }

  // What a write of input up to the position end does to the free list and the capacity: when it
  // has to grow, it asks for n blocks and gains their data bytes.
  ghost predicate Grew(input: seq<Byte>, end: nat, capacity: nat, capacity': nat, bs: nat, exts: seq<Extent>,
                       exts': seq<Extent>, n: nat, ok: bool)
  {
    if input == [] || end <= capacity then exts' == exts && capacity' == capacity
    else exts' == Carve(exts, n).1 && capacity' == if ok then capacity + n * bs - 16 else capacity
  }

  lemma FileIndex(objs: map<nat, Obj>, idx: map<nat, Inode>, next: nat, k: nat, o: Obj, idx': map<nat, Inode>)
    requires Agreed(objs, idx, next) && k in objs && objs[k].FileO? && o.FileO? && k in idx
    requires o.capacity == objs[k].capacity ==> o.start == objs[k].start
    requires idx' == if o.capacity == objs[k].capacity then idx else idx[k := Inode(idx[k].ino, o.capacity, o.start)]
    ensures idx' == idx[k := Inode(k, o.capacity, o.start)]
  {
  }

  // spfs_write on one of the objects.
  method WriteObject(sb: SuperBlock, f: SpInode, input: seq<Byte>, ppos: nat, ghost objs: map<nat, Obj>,
                     ghost next: nat)
    returns (ok: bool, count: nat, newPos: nat, ghost n: nat)
    requires World(sb, objs, next) && f.ino in objs && objs[f.ino] == FileObj(f)
    modifies f, sb.disk, sb.free`blocks, sb.free.spine
    ensures World(sb, objs[f.ino := FileObj(f)], next)
    ensures var v := Values(old(sb.disk.blocks), objs);
      && f.ino in v && v[f.ino].Content?
      && Values(sb.disk.blocks, objs[f.ino := FileObj(f)]) ==
           (if ok && input != []
            then v[f.ino := Content(Overwrite(v[f.ino].bytes, Min(ppos, |v[f.ino].bytes|), input))]
            else v)
      && (ok && input != [] ==> count == |input|)
      && (input != [] ==> newPos == Min(ppos, |v[f.ino].bytes|) + if ok then |input| else 0)
      && var end := Min(ppos, |v[f.ino].bytes|) + |input|;
         && WriteFits(input, end, old(f.capacity), sb.disk.bs, old(sb.free.Exts()), n, ok)
         && Grew(input, end, old(f.capacity), f.capacity, sb.disk.bs, old(sb.free.Exts()), sb.free.Exts(), n, ok)
    ensures (input == [] ==> ok && newPos == ppos) && (input == [] || !ok ==> count == 0)
    ensures OwnOnly(old(sb.disk.blocks), sb.disk.blocks, old(sb.free.Avail()), sb.free.Avail(), objs[f.ino], FileObj(f))
    ensures sb.tree.Index() == old(sb.tree.Index())[f.ino := Inode(f.ino, f.capacity, f.start)]
    ensures old(f.start) != 0 ==> f.start == old(f.start)
  {
    hide FreeList.Avail, BTree.Index, SuperBlock.Valid, Carve, LeastBlocks, Overwrite, FileAt, Touched, Values,
      Placed, Agreed, ChainSecs, FileBytes, FreeList.Exts;
    ghost var b0, av0, idx := sb.disk.blocks, sb.free.Avail(), sb.tree.Index();
    FilePlaced(b0, av0, sb.disk.bs, objs, f.ino, idx, next);
    ok, count, newPos, n := f.Write(sb, input, ppos);
    FileStep(b0, sb.disk.blocks, av0, sb.free.Avail(), sb.disk.bs, objs, f.ino, FileObj(f), idx, sb.tree.Index(), next);
    FileIndex(objs, idx, next, f.ino, FileObj(f), sb.tree.Index());
  }

  // spfs_btree_insert for a number not in use; the object owns nothing yet.
  method InsertObject(sb: SuperBlock, ino: nat, isDir: bool, ghost objs: map<nat, Obj>, ghost next: nat)
    returns (res: Res)
    requires World(sb, objs, next) && 0 < ino < next && ino !in objs && ino !in sb.tree.Index()
    modifies sb.tree`start, sb.tree`tree, sb.tree`height, sb.disk, sb.free`blocks, sb.free.spine
    ensures res == NewResult(old(sb.free.blocks), old(Needed(sb.tree.tree, ino, sb.tree.c)))
    ensures res.NoSpace? ==>
      && World(sb, objs, next) && sb.disk.blocks == old(sb.disk.blocks) && sb.free.blocks == old(sb.free.blocks)
      && sb.tree.Index() == old(sb.tree.Index())
    ensures res.Ok? ==> sb.tree.Index() == old(sb.tree.Index())[ino := Inode(ino, 0, 0)]
    ensures SameOff(old(sb.disk.blocks), sb.disk.blocks, old(Secs(sb.tree.tree)), old(sb.free.Avail()))
    ensures sb.free.Avail() <= old(sb.free.Avail())
    ensures res.Ok? ==> World(sb, objs[ino := Fresh(isDir)], next) && ino in sb.tree.Index()
    ensures res.Ok? ==>
      Values(sb.disk.blocks, objs[ino := Fresh(isDir)]) == Values(old(sb.disk.blocks), objs)[ino := Blank(isDir)]
    ensures res.Ok? ==> sb.free.blocks == old(sb.free.blocks) - old(Needed(sb.tree.tree, ino, sb.tree.c))
  {
    hide FreeList.Avail, FreeList.Valid, Inodes, Values, Placed, Agreed, Secs, Flat, Rep, SameOff, FreeKept, Homes,
      Shape, Sorted, Above, Needed, Lone, Clean, Small, Fresh, Blank;
    ghost var b0, av0, bs, idx0, t := sb.disk.blocks, sb.free.Avail(), sb.disk.bs, sb.tree.Index(), sb.tree.tree;
    res := sb.tree.SpfsInsert(Inode(ino, 0, 0));
    InsertClean(b0, sb.disk.blocks, av0, sb.free.Avail(), bs, Secs(t));
    if res == Ok {
      InsertStep(b0, sb.disk.blocks, av0, sb.free.Avail(), bs, objs, t, ino, isDir);
      AgreedAdd(objs, idx0, next, ino, isDir);
    }
  }

  // spfs_add_child on one of the objects.
  method AddToObject(sb: SuperBlock, d: SpDirectory, child: nat, ghost objs: map<nat, Obj>, ghost next: nat)
    returns (ok: bool)
    requires World(sb, objs, next) && d.ino in objs && objs[d.ino] == DirObj(d) && child in sb.tree.Index()
    requires 0 < child < TWO_32
    modifies d, sb.disk, sb.free`blocks, sb.free.spine
    ensures World(sb, objs[d.ino := DirObj(d)], next)
    ensures var v := Values(old(sb.disk.blocks), objs);
      && d.ino in v && v[d.ino].Members?
      && (ok <==> |v[d.ino].kids| % FULL != 0 || old(sb.free.blocks) > 1)
      && Values(sb.disk.blocks, objs[d.ino := DirObj(d)]) ==
           (if ok then v[d.ino := Members(v[d.ino].kids + [child])] else v)
      && var grows := |v[d.ino].kids| % 100 == 0;
         && sb.free.Exts() == (if grows then Carve(old(sb.free.Exts()), 1).1 else old(sb.free.Exts()))
         && sb.free.blocks == old(sb.free.blocks) - if ok && grows then 1 else 0
    ensures OwnOnly(old(sb.disk.blocks), sb.disk.blocks, old(sb.free.Avail()), sb.free.Avail(), objs[d.ino], DirObj(d))
    ensures RawOnly(old(sb.disk.blocks), sb.disk.blocks) && sb.tree.Index() == old(sb.tree.Index())
    ensures d.capacity == old(d.capacity) + 1 && (old(d.start) != 0 ==> d.start == old(d.start))
  {
    hide FreeList.Avail, FreeList.Exts, BTree.Index, SuperBlock.Valid, Values, Placed, Agreed, DirAt, DirSecs, Kids,
      Touched, Carve, RawOnly;
    ghost var b0, av0, idx := sb.disk.blocks, sb.free.Avail(), sb.tree.Index();
    DirPlaced(b0, av0, sb.disk.bs, objs, d.ino, idx, next);
    KnownMore(idx, d.Children(), child);
    ok := d.AddChild(sb, child);
    DirStep(b0, sb.disk.blocks, av0, sb.free.Avail(), sb.disk.bs, objs, d.ino, DirObj(d), idx, next);
  }

  class FileSystem {
    const sb: SuperBlock
    var files: map<nat, SpInode>
    var dirs: map<nat, SpDirectory>
    // spfs_super_block.id
    var nextId: nat

    // The objects as plain values.
    ghost var objs: map<nat, Obj>

    ghost predicate Mirrors()
      reads this, files.Values, dirs.Values
    {
      && files.Keys !! dirs.Keys && objs.Keys == files.Keys + dirs.Keys
      && (forall k :: k in files ==> files[k].ino == k && objs[k] == FileObj(files[k]))
      && (forall k :: k in dirs ==> dirs[k].ino == k && objs[k] == DirObj(dirs[k]))
    }

    ghost predicate Valid()
      reads this, sb, sb.tree, sb.disk, sb.free, sb.free.spine, sb.tree.disk, sb.tree.free, sb.tree.free.spine
      reads files.Values, dirs.Values
    {
      Mirrors() && World(sb, objs, nextId)
    }

    // The abstract file system.
    ghost function State(): map<nat, Value>
      reads this, sb.disk
    {
      Values(sb.disk.blocks, objs)
    }

    constructor (sb: SuperBlock, firstId: nat)
      requires sb.Valid() && sb.disk.bs >= ROOMY && Agreed(map[], sb.tree.Index(), firstId)
      ensures Valid() && State() == map[] && this.sb == sb && nextId == firstId
    {
      this.sb, files, dirs, nextId, objs := sb, map[], map[], firstId, map[];
    }

    // Only one file object changed.
    twostate lemma MirrorsFile(ino: nat)
      requires old(Mirrors()) && files == old(files) && dirs == old(dirs) && ino in files
      requires forall k :: k in dirs ==> unchanged(dirs[k])
      requires forall k :: k in files && k != ino ==> unchanged(files[k])
      requires objs == old(objs)[ino := FileObj(files[ino])]
      ensures Mirrors()
    {
    }

    // spfs_write on a file of this file system.
    method WriteFile(ino: nat, input: seq<Byte>, ppos: nat) returns (ok: bool, count: nat, newPos: nat, ghost n: nat)
      requires Valid() && ino in files
      modifies `objs, files[ino], sb.disk, sb.free`blocks, sb.free.spine
      ensures Valid() && files == old(files) && dirs == old(dirs)
      ensures ino in old(State()) && old(State())[ino].Content?
      ensures Enabled(old(State()), WriteOp(ino, input, ppos, ok))
      ensures State() == Apply(old(State()), WriteOp(ino, input, ppos, ok))
      ensures var p := Min(ppos, |old(State())[ino].bytes|);
        && (ok && input != [] ==> count == |input|) && (input != [] ==> newPos == p + if ok then |input| else 0)
        && WriteFits(input, p + |input|, old(files[ino].capacity), sb.disk.bs, old(sb.free.Exts()), n, ok)
        && Grew(input, p + |input|, old(files[ino].capacity), files[ino].capacity, sb.disk.bs,
                old(sb.free.Exts()), sb.free.Exts(), n, ok)
      ensures (input == [] ==> ok && newPos == ppos) && (input == [] || !ok ==> count == 0)
      ensures objs == old(objs)[ino := FileObj(files[ino])] && ino in old(objs)
      ensures OwnOnly(old(sb.disk.blocks), sb.disk.blocks, old(sb.free.Avail()), sb.free.Avail(),
                      old(objs)[ino], objs[ino])
      ensures sb.tree.Index() == old(sb.tree.Index())[ino := Inode(ino, files[ino].capacity, files[ino].start)]
      ensures old(files[ino].start) != 0 ==> files[ino].start == old(files[ino].start)
    {
      hide World, Overwrite, Values, FreeList.Avail, FreeList.Exts, WriteFits, Grew, OwnOnly, BTree.Index;
      var f := files[ino];
      ok, count, newPos, n := WriteObject(sb, f, input, ppos, objs, nextId);
      objs := objs[ino := FileObj(f)];
      MirrorsFile(ino);
    }

    // spfs_read on a file of this file system.
    method ReadFile(ino: nat, count: nat, ppos: nat) returns (out: seq<Byte>, newPos: nat)
      requires Valid() && ino in files
      ensures Enabled(State(), ReadOp(ino, count, ppos, out)) && newPos == ppos + |out|
    {
      hide FreeList.Avail, BTree.Index, SuperBlock.Valid, FileAt, Values, Placed, Agreed, FileBytes, Part;
      FilePlaced(sb.disk.blocks, sb.free.Avail(), sb.disk.bs, objs, ino, sb.tree.Index(), nextId);
      out, newPos := files[ino].Read(sb, count, ppos);
    }

    // spfs_iterate on a directory of this file system.
    method List(ino: nat, accept: Consumer, from: nat) returns (ok: bool, to: nat, out: seq<Item>)
      requires Valid() && ino in dirs
      modifies sb.disk
      ensures Valid() && State() == old(State()) && sb.disk.blocks == old(sb.disk.blocks)
      ensures Enabled(old(State()), ListOp(ino, accept, from, out, to)) && (ok <==> to >= 2)
    {
      hide FreeList.Avail, BTree.Index, SuperBlock.Valid, DirAt, Values, Placed, Agreed, Round, DirSecs, Kids;
      DirPlaced(sb.disk.blocks, sb.free.Avail(), sb.disk.bs, objs, ino, sb.tree.Index(), nextId);
      ok, to, out := Iterate(sb, dirs[ino], accept, from);
    }

    // A fresh object comes into memory.
    method Introduce(ino: nat, isDir: bool)
      requires Mirrors() && ino !in objs
      modifies this`files, this`dirs, this`objs
      ensures Mirrors() && objs == old(objs)[ino := Fresh(isDir)]
      ensures if isDir then files == old(files) && dirs.Keys == old(dirs).Keys + {ino}
              else dirs == old(dirs) && files.Keys == old(files).Keys + {ino}
      ensures forall k :: k in old(dirs) ==> k in dirs && dirs[k] == old(dirs)[k]
      ensures forall k :: k in old(files) ==> k in files && files[k] == old(files)[k]
    {
      if isDir {
        var d := new SpDirectory(ino);
        dirs := dirs[ino := d];
      } else {
        var f := new SpInode(ino);
        files := files[ino := f];
      }
      objs := objs[ino := Fresh(isDir)];
    }

    // The number half of spfs_new_inode.
    method NextNumber() returns (ino: nat)
      requires Valid()
      modifies this`nextId
      ensures Valid() && ino == old(nextId) > 0 && nextId == old(nextId) + 1
      ensures ino !in objs && ino !in sb.tree.Index() && ino !in State()
    {
      hide FreeList.Avail, BTree.Index, SuperBlock.Valid, Placed, Agreed;
      AgreedNew(objs, sb.tree.Index(), nextId);
      ino := nextId;
      nextId := nextId + 1;
    }

    // spfs_fill_super_block on a device without a root: the root directory exists in memory only.
    method MakeRoot() returns (ino: nat)
      requires Valid()
      modifies this`files, this`dirs, this`nextId, this`objs
      ensures Valid() && ino == old(nextId) && nextId == ino + 1 && ino !in old(State()) && ino in dirs
      ensures objs == old(objs)[ino := DirO(0, 0, [])] && files == old(files) && dirs.Keys == old(dirs).Keys + {ino}
      ensures forall k :: k in old(dirs) ==> k in dirs && dirs[k] == old(dirs)[k]
      ensures Enabled(old(State()), RootOp(ino)) && State() == Apply(old(State()), RootOp(ino))
    {
      hide FreeList.Avail, BTree.Index, SuperBlock.Valid, Values, Placed, Agreed;
      ino := NextNumber();
      AgreedAdd(objs, sb.tree.Index(), nextId, ino, true);
      NothingStep(sb.disk.blocks, sb.free.Avail(), sb.disk.bs, objs, ino, true);
      Introduce(ino, true);
    }

    method Adopt(d: SpDirectory)
      requires Mirrors() && d.ino !in objs
      modifies this`dirs, this`objs
      ensures Mirrors() && objs == old(objs)[d.ino := DirObj(d)] && dirs == old(dirs)[d.ino := d]
      ensures forall k :: k in old(dirs) ==> k in dirs && dirs[k] == old(dirs)[k]
    {
      dirs := dirs[d.ino := d];
      objs := objs[d.ino := DirObj(d)];
    }

    // spfs_inode_by_id for a directory that is not in memory yet.
    method LoadDirectory(ino: nat, inode: Inode, ghost blocks: seq<DirBlk>)
      requires Valid() && ino in sb.tree.Index() && inode == sb.tree.Index()[ino] && ino !in objs
      requires Joins(sb.disk.blocks, sb.free.Avail(), sb.disk.bs, objs, DirO(inode.start, inode.capacity, blocks))
      requires Known(sb.tree.Index(), Kids(blocks))
      modifies this`dirs, this`objs
      ensures Valid() && dirs.Keys == old(dirs).Keys + {ino}
      ensures objs == old(objs)[ino := DirO(inode.start, inode.capacity, blocks)]
      ensures forall k :: k in old(dirs) ==> k in dirs && dirs[k] == old(dirs)[k]
      ensures State() == old(State())[ino := Members(Kids(blocks))]
    {
      hide World, Mirrors, Values, FreeList.Avail, BTree.Index, Joins, Kids, Known;
      JoinWorld(sb, objs, nextId, ino, inode, blocks);
      var d := new SpDirectory.Load(ino, inode.start, inode.capacity, blocks);
      Adopt(d);
    }

    // spfs_generic_create: a number, a place in the index and an object in memory.
    method GenericCreate(isDir: bool) returns (res: Res, ino: nat)
      requires Valid()
      modifies this`files, this`dirs, this`nextId, this`objs
      modifies sb.tree`start, sb.tree`tree, sb.tree`height, sb.disk, sb.free`blocks, sb.free.spine
      ensures ino == old(nextId) > 0 && nextId == old(nextId) + 1 && ino !in old(State())
      ensures res == NewResult(old(sb.free.blocks), old(Needed(sb.tree.tree, nextId, sb.tree.c)))
      ensures !res.Bug? ==> Valid()
      ensures res.NoSpace? ==> State() == old(State()) && files == old(files) && dirs == old(dirs)
      ensures res.Ok? ==> State() == old(State())[ino := Blank(isDir)] && ino in sb.tree.Index()
      ensures res.Ok? ==> sb.free.blocks == old(sb.free.blocks) - old(Needed(sb.tree.tree, nextId, sb.tree.c))
      ensures res.NoSpace? ==>
        && objs == old(objs) && sb.tree.Index() == old(sb.tree.Index())
        && sb.disk.blocks == old(sb.disk.blocks) && sb.free.blocks == old(sb.free.blocks)
      ensures res.Ok? ==>
        && sb.tree.Index() == old(sb.tree.Index())[ino := Inode(ino, 0, 0)]
        && ino !in old(objs) && objs == old(objs)[ino := if isDir then DirO(0, 0, []) else FileO(0, 0, 0, [])]
      ensures SameOff(old(sb.disk.blocks), sb.disk.blocks, old(Secs(sb.tree.tree)), old(sb.free.Avail()))
      ensures sb.free.Avail() <= old(sb.free.Avail())
      ensures forall k :: k in old(dirs) ==> k in dirs && dirs[k] == old(dirs)[k]
      ensures forall k :: k in old(files) ==> k in files && files[k] == old(files)[k]
    {
      hide World, Values, Needed, FreeList.Avail, BTree.Index, Blank, Secs, SameOff;
      ino := NextNumber();
      res := InsertObject(sb, ino, isDir, objs, nextId);
      assert Mirrors();
      if res == Ok {
        Introduce(ino, isDir);
      }
    }

    lemma Listing(k: nat)
      requires Valid() && k in dirs
      ensures k in State() && State()[k].Members? && k in objs && objs[k] == DirObj(dirs[k])
    {
      hide FreeList.Avail, BTree.Index, SuperBlock.Valid, Placed, Agreed, Values;
      DirPlaced(sb.disk.blocks, sb.free.Avail(), sb.disk.bs, objs, k, sb.tree.Index(), nextId);
    }

    // spfs_create and spfs_mkdir. An inode that no directory block has room for stays in the index
    // without a name.
    method Create(parent: nat, isDir: bool) returns (res: Made, ino: nat)
      requires Valid() && parent in dirs && nextId < TWO_32
      modifies this`files, this`dirs, this`nextId, this`objs, dirs[parent]
      modifies sb.tree`start, sb.tree`tree, sb.tree`height, sb.disk, sb.free`blocks, sb.free.spine
      ensures ino == old(nextId) && nextId == old(nextId) + 1 && ino !in old(State())
      ensures parent in old(State()) && old(State())[parent].Members?
      ensures parent in old(objs) && parent in dirs && dirs[parent] == old(dirs[parent])
      ensures var needed, n := old(Needed(sb.tree.tree, nextId, sb.tree.c)), |old(State())[parent].kids|;
        res == MadeResult(old(sb.free.blocks), needed, n)
      ensures !res.Halted? ==> Valid() && Enabled(old(State()), CreateOp(parent, ino, isDir, res))
      ensures !res.Halted? ==> State() == Apply(old(State()), CreateOp(parent, ino, isDir, res))
      ensures res.NoRoom? ==>
        && objs == old(objs) && sb.tree.Index() == old(sb.tree.Index())
        && sb.disk.blocks == old(sb.disk.blocks) && sb.free.blocks == old(sb.free.blocks)
      ensures res.Created? || res.Unlinked? ==>
        && sb.tree.Index() == old(sb.tree.Index())[ino := Inode(ino, 0, 0)]
        && ino !in old(objs) && dirs[parent].capacity == old(dirs[parent].capacity) + 1
        && objs == old(objs)[ino := if isDir then DirO(0, 0, []) else FileO(0, 0, 0, [])]
                            [parent := DirObj(dirs[parent])]
      ensures res.Created? || res.Unlinked? ==>
        sb.free.blocks == old(sb.free.blocks) - old(Needed(sb.tree.tree, nextId, sb.tree.c))
          - if res.Created? && |old(State())[parent].kids| % 100 == 0 then 1 else 0
      ensures !res.Halted? ==>
        Elsewhere(old(sb.disk.blocks), sb.disk.blocks, old(Secs(sb.tree.tree)), old(sb.free.Avail()),
                  Foot(old(objs)[parent]))
    {
      hide World, Values, Needed, Blank, FreeList.Avail, FreeList.Exts, BTree.Index, Mirrors, Secs, SameOff, OwnOnly,
        RawOnly, Elsewhere, Carve;
      Listing(parent);
      ghost var b0, av0, secs0, o0 := sb.disk.blocks, sb.free.Avail(), Secs(sb.tree.tree), objs[parent];
      var done;
      done, ino := GenericCreate(isDir);
      AsideSoFar(b0, sb.disk.blocks, secs0, av0, Foot(o0));
      if done != Ok {
        return if done == NoSpace then NoRoom else Halted, ino;
      }
      ghost var b1, av1 := sb.disk.blocks, sb.free.Avail();
      var ok := AddToParent(parent, ino);
      CreateAside(b0, b1, sb.disk.blocks, secs0, av0, av1, sb.free.Avail(), o0, objs[parent]);
      res := if ok then Created else Unlinked;
    }

    method AddToParent(parent: nat, child: nat) returns (ok: bool)
      requires Valid() && parent in dirs && child in sb.tree.Index() && 0 < child < TWO_32
      modifies this`objs, dirs[parent], sb.disk, sb.free`blocks, sb.free.spine
      ensures Valid() && parent in old(State()) && old(State())[parent].Members?
      ensures ok <==> |old(State())[parent].kids| % FULL != 0 || old(sb.free.blocks) > 1
      ensures var s := old(State()); State() == if ok then s[parent := Members(s[parent].kids + [child])] else s
      ensures objs == old(objs)[parent := DirObj(dirs[parent])] && parent in old(objs)
      ensures dirs[parent].capacity == old(dirs[parent].capacity) + 1
      ensures var grows := |old(State())[parent].kids| % 100 == 0;
        && sb.free.Exts() == (if grows then Carve(old(sb.free.Exts()), 1).1 else old(sb.free.Exts()))
        && sb.free.blocks == old(sb.free.blocks) - if ok && grows then 1 else 0
      ensures OwnOnly(old(sb.disk.blocks), sb.disk.blocks, old(sb.free.Avail()), sb.free.Avail(),
                      old(objs)[parent], objs[parent])
      ensures RawOnly(old(sb.disk.blocks), sb.disk.blocks) && sb.tree.Index() == old(sb.tree.Index())
    {
      hide World, Values, FreeList.Avail, FreeList.Exts, Carve, OwnOnly, RawOnly, BTree.Index;
      var d := dirs[parent];
      ok := AddToObject(sb, d, child, objs, nextId);
      objs := objs[parent := DirObj(d)];
      MirrorsDir(parent);
    }

    // Only one directory object changed.
    twostate lemma MirrorsDir(ino: nat)
      requires old(Mirrors()) && files == old(files) && dirs == old(dirs) && ino in dirs
      requires forall k :: k in files ==> unchanged(files[k])
      requires forall k :: k in dirs && k != ino ==> unchanged(dirs[k])
      requires objs == old(objs)[ino := DirObj(dirs[ino])]
      ensures Mirrors()
    {
    }
  }

  lemma NothingStep(b: map<Sector, Block>, av: set<Sector>, bs: nat, objs: map<nat, Obj>, k: nat, isDir: bool)
    requires Placed(b, av, bs, objs) && k !in objs
    ensures Placed(b, av, bs, objs[k := Fresh(isDir)]) && k !in Values(b, objs)
    ensures Values(b, objs[k := Fresh(isDir)]) == Values(b, objs)[k := Blank(isDir)]
  {
    hide ObjAt, Foot, ValueOf;
    EmptyObj(b, av, bs, Fresh(isDir));
  }

  // At any time every sector of the device has at most one owner: super block, free-list block,
  // free space, index node, inode block, or one file or directory.
  lemma SectorsOwned(fs: FileSystem, o: Owner, p: Owner, x: Sector)
    requires fs.Valid()
    requires Owns(fs.sb.disk.blocks, fs.sb.free.Avail(), fs.sb.tree.tree, fs.objs, o, x)
    requires Owns(fs.sb.disk.blocks, fs.sb.free.Avail(), fs.sb.tree.tree, fs.objs, p, x)
    ensures o == p
  {
    hide Owns, Placed, Agreed, Stored, Homes, Clean, Small, Flat, Secs;
    var sb := fs.sb;
    OneOwner(sb.disk.blocks, sb.free.Avail(), sb.disk.bs, sb.tree.tree, sb.tree.height, sb.tree.c, fs.objs, o, p, x);
  }
}
