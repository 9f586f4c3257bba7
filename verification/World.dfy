// Who owns which sector: the objects of a mounted file system, side by side.

module Worlds {
  import opened Entries
  import opened Disks
  import opened Extents
  import opened Chains
  import opened Files
  import opened Trees
  import opened Layouts
  import opened Supers
  import opened RegularFiles
  import opened Directories
  import opened Listings

  // An object in memory: a regular file or a directory.
  datatype Obj =
    | FileO(start: Sector, capacity: nat, size: nat, chain: seq<Ext>)
    | DirO(start: Sector, capacity: nat, blocks: seq<DirBlk>)

  // What an object stands for.
  datatype Value = Content(bytes: seq<Byte>) | Members(kids: seq<nat>)

  ghost predicate ObjAt(b: map<Sector, Block>, av: set<Sector>, bs: nat, o: Obj) {
    match o
    case FileO(start, capacity, size, chain) => FileAt(b, av, bs, start, capacity, size, chain)
    case DirO(start, capacity, blocks) =>
      DirAt(b, blocks, bs) && start == SecAt(blocks, 0) && DirSecs(blocks) !! av && |Kids(blocks)| <= capacity
  }

  ghost function Foot(o: Obj): set<Sector> {
    match o
    case FileO(start, capacity, size, chain) => ChainSecs(chain)
    case DirO(start, capacity, blocks) => DirSecs(blocks)
  }

  ghost function ValueOf(b: map<Sector, Block>, o: Obj): Value {
    match o
    case FileO(start, capacity, size, chain) => Content(FileBytes(b, chain, size))
    case DirO(start, capacity, blocks) => Members(Kids(blocks))
  }

  lemma DirRaw(b: map<Sector, Block>, c: seq<DirBlk>, bs: nat)
    requires DirAt(b, c, bs)
    ensures forall x :: x in DirSecs(c) ==> x in b && b[x].Raw? && x != 0
  {
    forall x | x in DirSecs(c) ensures x in b && b[x].Raw? && x != 0 {
      var k :| 0 <= k < |c| && c[k].sec == x;
      assert BlkAt(b, c[k], SecAt(c, k + 1), bs);
    }
  }

  lemma DirKept(b: map<Sector, Block>, b': map<Sector, Block>, c: seq<DirBlk>, bs: nat)
    requires DirAt(b, c, bs) && forall x :: x in DirSecs(c) && x in b ==> x in b' && b'[x] == b[x]
    ensures DirAt(b', c, bs)
  {
    forall k | 0 <= k < |c| ensures BlkAt(b', c[k], SecAt(c, k + 1), bs) {
      DirSecsIn(c, k);
      BlkKept(b, b', c[k], SecAt(c, k + 1), bs);
    }
  }

  // The sectors of an object hold raw bytes.
  lemma ObjRaw(b: map<Sector, Block>, av: set<Sector>, bs: nat, o: Obj)
    requires ObjAt(b, av, bs, o)
    ensures forall x :: x in Foot(o) ==> x in b && b[x].Raw? && x != 0
    ensures Foot(o) !! av
  {
    match o
    case FileO(start, capacity, size, chain) => ChainRaw(b, chain, bs);
    case DirO(start, capacity, blocks) => DirRaw(b, blocks, bs);
  }

  // An object whose sectors do not change stands for what it stood for.
  lemma ObjKept(b: map<Sector, Block>, b': map<Sector, Block>, av: set<Sector>, av': set<Sector>, bs: nat, o: Obj)
    requires ObjAt(b, av, bs, o) && av' <= av && forall x :: x in Foot(o) && x in b ==> x in b' && b'[x] == b[x]
    ensures ObjAt(b', av', bs, o) && ValueOf(b', o) == ValueOf(b, o)
  {
    hide ChainAt, Storage, Readable, DirAt;
    match o
    case FileO(start, capacity, size, chain) => ChainKept(b, b', chain, bs);
    case DirO(start, capacity, blocks) => DirKept(b, b', blocks, bs);
  }

  // Every object in place, no two sharing a sector.
  ghost predicate Placed(b: map<Sector, Block>, av: set<Sector>, bs: nat, objs: map<nat, Obj>) {
    && (forall k :: k in objs ==> ObjAt(b, av, bs, objs[k]))
    && (forall j, k :: j in objs && k in objs && j != k ==> Foot(objs[j]) !! Foot(objs[k]))
  }

  // The index and the objects agree: a file's inode block records its start and capacity, and
  // directories list only inodes of the index; numbers from next on are not in use.
  ghost predicate Agreed(objs: map<nat, Obj>, idx: map<nat, Inode>, next: nat) {
    && Coherent(idx) && next > 0
    && (forall k :: k in idx ==> 0 < k < next)
    && (forall k :: k in objs ==> 0 < k < next)
    && (forall k :: k in objs && objs[k].FileO? ==> k in idx && idx[k] == Inode(k, objs[k].capacity, objs[k].start))
    && (forall k :: k in objs && objs[k].DirO? ==> Known(idx, Kids(objs[k].blocks)))
  }

  // All objects but one stand for what they stood for.
  ghost predicate OthersKept(b: map<Sector, Block>, b': map<Sector, Block>, objs: map<nat, Obj>, k: nat) {
    forall j :: j in objs && j != k ==> ValueOf(b', objs[j]) == ValueOf(b, objs[j])
  }

  // An operation that writes only sectors of one object, free sectors it takes and inode blocks.
  lemma OneObject(b: map<Sector, Block>, b': map<Sector, Block>, av: set<Sector>, av': set<Sector>, bs: nat,
                  objs: map<nat, Obj>, k: nat, o: Obj)
    requires Placed(b, av, bs, objs) && k in objs && Touched(b, b', av, av', Foot(objs[k]))
    requires ObjAt(b', av', bs, o) && Foot(o) <= Foot(objs[k]) + av
    ensures Placed(b', av', bs, objs[k := o]) && OthersKept(b, b', objs, k)
  {
    hide ObjAt, Foot, ValueOf;
    forall j | j in objs && j != k
      ensures ObjAt(b', av', bs, objs[j]) && ValueOf(b', objs[j]) == ValueOf(b, objs[j]) && Foot(objs[j]) !! Foot(o)
    {
      ObjRaw(b, av, bs, objs[j]);
      ObjKept(b, b', av, av', bs, objs[j]);
    }
  }

  // An insertion into the index writes only nodes and free sectors.
  lemma NewInode(b: map<Sector, Block>, b': map<Sector, Block>, av: set<Sector>, av': set<Sector>, bs: nat,
                 objs: map<nat, Obj>, t: Tree, k: nat, o: Obj)
    requires Placed(b, av, bs, objs) && Rep(b, t) && SameOff(b, b', Secs(t), av) && av' <= av && k !in objs
    requires o == FileO(0, 0, 0, []) || o == DirO(0, 0, [])
    ensures Placed(b', av', bs, objs) && Placed(b', av', bs, objs[k := o]) && OthersKept(b, b', objs, k)
  {
    hide ObjAt, Foot, ValueOf, Secs, Rep;
    RepTagged(b, t);
    forall j | j in objs
      ensures ObjAt(b', av', bs, objs[j]) && ValueOf(b', objs[j]) == ValueOf(b, objs[j])
    {
      ObjRaw(b, av, bs, objs[j]);
      ObjKept(b, b', av, av', bs, objs[j]);
    }
    assert ObjAt(b', av', bs, o) && Foot(o) == {} by { EmptyObj(b', av', bs, o); }
  }

  lemma EmptyObj(b: map<Sector, Block>, av: set<Sector>, bs: nat, o: Obj)
    requires o == FileO(0, 0, 0, []) || o == DirO(0, 0, [])
    ensures ObjAt(b, av, bs, o) && Foot(o) == {}
    ensures ValueOf(b, o) == if o.FileO? then Content([]) else Members([])
  {
  }

  // What the free space still holds is clean after an insertion too.
  lemma InsertClean(b: map<Sector, Block>, b': map<Sector, Block>, av: set<Sector>, av': set<Sector>, bs: nat,
                    foot: multiset<Sector>)
    requires Clean(b, av, bs) && Small(b, bs) && SameOff(b, b', foot, av) && FreeKept(b, b', av') && av' <= av
    ensures Clean(b', av', bs) && Small(b', bs)
  {
  }

  // The possible owners of a sector.
  datatype Owner = Super | FreeBlock | Space | Node | Home(ino: nat) | Object(ino: nat)

  ghost predicate Owns(b: map<Sector, Block>, av: set<Sector>, t: Tree, objs: map<nat, Obj>, o: Owner, x: Sector) {
    match o
    case Super => x == 0
    case FreeBlock => x != 0 && x in b && b[x].FreeB?
    case Space => x in av
    case Node => x in Secs(t)
    case Home(k) => k in ToMap(Flat(t)) && ToMap(Flat(t))[k] == x
    case Object(k) => k in objs && x in Foot(objs[k])
  }

  // What an owner keeps in its sectors: enough to tell the kinds of owners apart.
  ghost predicate Kind(b: map<Sector, Block>, av: set<Sector>, o: Owner, x: Sector) {
    match o
    case Super => x == 0
    case FreeBlock => x != 0 && x in b && b[x].FreeB?
    case Space => x != 0 && x in av && x in b && b[x].Raw?
    case Node => x != 0 && x in b && b[x].NodeB?
    case Home(k) => x != 0 && x in b && b[x].InodeB?
    case Object(k) => x != 0 && x in b && b[x].Raw? && x !in av
  }

  lemma OwnerKind(b: map<Sector, Block>, av: set<Sector>, bs: nat, t: Tree, h: nat, c: nat, objs: map<nat, Obj>,
                  o: Owner, x: Sector)
    requires Placed(b, av, bs, objs) && Stored(b, av, t, h, 1, c) && Homes(b, Flat(t), Secs(t), av)
    requires Clean(b, av, bs) && 0 !in av
    requires Owns(b, av, t, objs, o, x)
    ensures Kind(b, av, o, x)
  {
    hide Flat, Secs, Sorted, Above, Shape, Rep, ObjAt, Foot, Zeros;
    match o
    case Node => RepTagged(b, t);
    case Home(k) =>
      var i := MapOrigin(Flat(t), k);
      assert HomeAt(b, Flat(t)[i].offset, Secs(t), av);
    case Object(k) => ObjRaw(b, av, bs, objs[k]);
    case _ =>
  }

  // At any time a sector has at most one owner.
  lemma OneOwner(b: map<Sector, Block>, av: set<Sector>, bs: nat, t: Tree, h: nat, c: nat, objs: map<nat, Obj>,
                 o: Owner, p: Owner, x: Sector)
    requires Placed(b, av, bs, objs) && Stored(b, av, t, h, 1, c) && Homes(b, Flat(t), Secs(t), av)
    requires Clean(b, av, bs) && 0 !in av
    requires Owns(b, av, t, objs, o, x) && Owns(b, av, t, objs, p, x)
    ensures o == p
  {
    hide Flat, Secs, Sorted, Above, Shape, Rep, ObjAt, Foot, Stored, Clean;
    OwnerKind(b, av, bs, t, h, c, objs, o, x);
    OwnerKind(b, av, bs, t, h, c, objs, p, x);
    if o.Home? && p.Home? {
      var i := MapOrigin(Flat(t), o.ino);
      var j := MapOrigin(Flat(t), p.ino);
    }
  }
}
