// The insertion code of the source as it stands (btree.c): for each place where it parts from what
// it sets out to do, taken by itself and with all other repairs made, the exact condition under
// which it still does the right thing.

module IndexAsWritten {
  import opened Entries
  import opened Disks
  import opened BNodes
  import opened Trees
  import opened Layouts
  import opened BTrees

  // Differences of entry addresses count bytes, and an entry has 16 of them.
  const ENTRY_BYTES := 16

  // bnode_index_of, and the entry the search probes first.
  function IndexOf(i: nat, c: nat): nat {
    if i * ENTRY_BYTES > c then c else i * ENTRY_BYTES
  }

  function FirstProbe(length: nat): nat {
    length * ENTRY_BYTES / 2
  }

  // The index is right only for the first entry, and the first probe lies behind the entries of
  // every node that has any.
  lemma BytesForIndex(i: nat, c: nat, length: nat)
    requires i < c
    ensures IndexOf(i, c) == i <==> i == 0
    ensures FirstProbe(length) >= length
  {
  }

  // bnode_bin_insert without a greater-or-equal entry goes to the front of the node.
  ghost function FrontPut(es: seq<Entry>, e: Entry): seq<Entry> {
    Put(es, if Rank(es, e.id) == |es| then 0 else Rank(es, e.id), e)
  }

  // The node stays in order exactly when some entry is greater, or there is none at all.
  lemma FrontPutSorted(es: seq<Entry>, e: Entry)
    requires Sorted(es) && !Has(es, e.id)
    ensures Sorted(FrontPut(es, e)) <==> Rank(es, e.id) < |es| || es == []
  {
    if Rank(es, e.id) < |es| || es == [] {
      InsSorted(es, e);
    } else {
      var t := FrontPut(es, e);
      assert t[0] == e && t[1] == es[0] && es[0].id < e.id;
    }
  }

  // bnode_bin_insert puts the new child behind all others: right exactly when all those it belongs
  // in front of are equal to it, as in a leaf, where they are all 0, or for the greatest key.
  lemma ChildLast(ch: seq<Sector>, r: nat, gt: Sector)
    requires r + 1 <= |ch|
    ensures ch + [gt] == Put(ch, r + 1, gt) <==> forall j :: r + 1 <= j < |ch| ==> ch[j] == gt
  {
    var t := Put(ch, r + 1, gt);
    assert forall j :: 0 <= j <= r ==> t[j] == ch[j];
    assert t[r + 1] == gt && forall j :: r + 1 <= j < |ch| ==> t[j + 1] == ch[j];
    if ch + [gt] == t { AllSame(ch, r + 1, gt); }
  }

  lemma {:induction false} AllSame(ch: seq<Sector>, i: nat, gt: Sector)
    requires i <= |ch| && ch + [gt] == Put(ch, i, gt)
    ensures forall j :: i <= j < |ch| ==> ch[j] == gt
    decreases |ch| - i
  {
    if i < |ch| {
      assert (ch + [gt])[i] == Put(ch, i, gt)[i];
      assert Put(ch, i, gt) == Put(ch, i + 1, gt);
      AllSame(ch, i + 1, gt);
    }
  }

  // btree_fixup leaves the bubble active when the node took it in, so the node above takes it in
  // again: the subtree and the bubble that come out of a node, numbers of sectors aside.
  datatype Rising = Rising(kid: Tree, sep: Entry, greater: Tree)

  ghost function TakenIn(t: Tree, i: nat, up: Rising): (s: Tree)
    requires t.Br? && |t.ks| == |t.es| + 1 && i <= |t.es|
    ensures s.Br? && |s.es| == |t.es| + 1 && |s.ks| == |s.es| + 1
  {
    var j := Rank(t.es, up.sep.id);
    Br(t.sec, Put(t.es, j, up.sep), Put(t.ks[i := up.kid], j + 1, up.greater))
  }

  ghost function Kept(t: Tree, h: nat, m: int, c: nat, e: Entry): Rising
    requires Shape(t, h, m, c) && c > 0
    decreases h
  {
    if t.Nil? then Rising(Nil, e, Nil) else
      var i := Rank(t.es, e.id);
      assert Shape(t.ks[i], h - 1, c / 2, c) by { assert ShapeAll(t.ks, h - 1, c); }
      var up := Kept(t.ks[i], h - 1, c / 2, c, e);
      var s := TakenIn(t, i, up);
      if |t.es| < c then Rising(s, up.sep, up.greater)
      else Rising(LeftOf(s, c / 2), s.es[c / 2], RightOf(s, c / 2, 0))
  }

  // A bubble that is still active at the top always grows a root.
  ghost function KeptTop(t: Tree, h: nat, m: int, c: nat, e: Entry): Tree
    requires Shape(t, h, m, c) && c > 0
  {
    var up := Kept(t, h, m, c, e);
    Br(0, [up.sep], [up.kid, up.greater])
  }

  ghost function Count(ks: seq<Tree>): nat {
    if |ks| == 0 then 0 else |Flat(ks[0])| + Count(ks[1..])
  }

  lemma {:induction false} CountAppend(a: seq<Tree>, b: seq<Tree>)
    ensures Count(a + b) == Count(a) + Count(b)
  {
    if |a| == 0 {
      assert a + b == b;
    } else {
      assert (a + b)[1..] == a[1..] + b;
      CountAppend(a[1..], b);
    }
  }

  lemma {:induction false} WeaveCount(es: seq<Entry>, ks: seq<Tree>)
    requires |ks| == |es| + 1
    ensures |Weave(es, ks)| == |es| + Count(ks)
  {
    if |es| == 0 {
      assert ks[1..] == [] && Count(ks[1..]) == 0;
    } else {
      WeaveCount(es[1..], ks[1..]);
    }
  }

  lemma CountOne(k: Tree)
    ensures Count([k]) == |Flat(k)|
  {
    hide Flat;
    assert [k][1..] == [];
  }

  lemma CountSet(ks: seq<Tree>, i: nat, k: Tree)
    requires i < |ks|
    ensures Count(ks[i := k]) == Count(ks) - |Flat(ks[i])| + |Flat(k)|
  {
    hide Flat, Count;
    assert ks == ks[..i] + ([ks[i]] + ks[i + 1..]) && ks[i := k] == ks[..i] + ([k] + ks[i + 1..]);
    CountAppend(ks[..i], [ks[i]] + ks[i + 1..]);
    CountAppend([ks[i]], ks[i + 1..]);
    CountAppend(ks[..i], [k] + ks[i + 1..]);
    CountAppend([k], ks[i + 1..]);
    CountOne(ks[i]);
    CountOne(k);
  }

  lemma CountPut(ks: seq<Tree>, j: nat, g: Tree)
    requires j <= |ks|
    ensures Count(Put(ks, j, g)) == Count(ks) + |Flat(g)|
  {
    hide Flat, Count;
    assert Put(ks, j, g) == ks[..j] + ([g] + ks[j..]) && ks == ks[..j] + ks[j..];
    CountAppend(ks[..j], [g] + ks[j..]);
    CountAppend([g], ks[j..]);
    CountAppend(ks[..j], ks[j..]);
    CountOne(g);
  }

  lemma TakenInSize(t: Tree, i: nat, up: Rising)
    requires t.Br? && |t.ks| == |t.es| + 1 && i <= |t.es|
    ensures |Flat(TakenIn(t, i, up))| == |Flat(t)| - |Flat(t.ks[i])| + |Flat(up.kid)| + 1 + |Flat(up.greater)|
  {
    hide Count, Weave, Rank, Put;
    var s := TakenIn(t, i, up);
    WeaveCount(t.es, t.ks);
    WeaveCount(s.es, s.ks);
    CountSet(t.ks, i, up.kid);
    CountPut(t.ks[i := up.kid], Rank(t.es, up.sep.id) + 1, up.greater);
    assert Flat(s) == Weave(s.es, s.ks) && Flat(t) == Weave(t.es, t.ks);
  }

  // Every node with room on the path hands its bubble on, so the contents grow by more than the
  // one new entry; a path of full nodes only hands each bubble on once.
  lemma {:induction false} KeptSize(t: Tree, h: nat, m: int, c: nat, e: Entry)
    requires Shape(t, h, m, c) && c > 0
    ensures var up := Kept(t, h, m, c, e); var n := |Flat(up.kid)| + 1 + |Flat(up.greater)|;
      if Bubbles(t, e.id, c) then n == |Flat(t)| + 1 else n > |Flat(t)| + 1
    decreases h
  {
    hide Flat, Rank, TakenIn, LeftOf, RightOf;
    if t.Nil? {
      assert |Flat(t)| == 0 && |Flat(Nil)| == 0 by { NilFlat(t); }
    } else {
      var i := Rank(t.es, e.id);
      KeptSize(t.ks[i], h - 1, c / 2, c, e);
      var up := Kept(t.ks[i], h - 1, c / 2, c, e);
      TakenInSize(t, i, up);
      if |t.es| >= c {
        CutTree(TakenIn(t, i, up), c / 2, 0);
      }
    }
  }

  lemma NilFlat(t: Tree)
    requires t.Nil?
    ensures Flat(t) == [] && Flat(Nil) == []
  {
  }

  // Where all nodes on the path are full the bubble goes up exactly as it should.
  lemma {:induction false} KeptFull(t: Tree, h: nat, m: int, c: nat, e: Entry)
    requires Shape(t, h, m, c) && c > 0 && Bubbles(t, e.id, c) && Sorted(Flat(t)) && !Has(Flat(t), e.id)
    ensures var up := Kept(t, h, m, c, e); Flat(up.kid) + [up.sep] + Flat(up.greater) == Ins(Flat(t), e)
    decreases h
  {
    hide Flat, Rank, Sorted, Has, Ins, LeftOf, RightOf, TakenIn;
    if t.Nil? {
      NilIns(t, e);
    } else {
      var i := Rank(t.es, e.id);
      KidKeeps(t, i, e);
      KeptFull(t.ks[i], h - 1, c / 2, c, e);
      FullStep(t, i, Kept(t.ks[i], h - 1, c / 2, c, e), c, e);
    }
  }

  // One full node on the path.
  lemma FullStep(t: Tree, i: nat, up: Rising, c: nat, e: Entry)
    requires t.Br? && |t.ks| == |t.es| + 1 && |t.es| == c > 0 && i == Rank(t.es, e.id)
    requires Sorted(Flat(t)) && !Has(Flat(t), e.id) && (i < |t.es| ==> t.es[i].id != e.id)
    requires Flat(up.kid) + [up.sep] + Flat(up.greater) == Ins(Flat(t.ks[i]), e)
    ensures var s := TakenIn(t, i, up);
      Flat(LeftOf(s, c / 2)) + [s.es[c / 2]] + Flat(RightOf(s, c / 2, 0)) == Ins(Flat(t), e)
  {
    hide Flat, Rank, Sorted, Has, Ins, LeftOf, RightOf, TakenIn, Swollen;
    SwollenOrder(t, i, up.kid, up.sep, up.greater, e);
    TakenInPlace(t, i, up);
    CutTree(TakenIn(t, i, up), c / 2, 0);
  }

  lemma NilIns(t: Tree, e: Entry)
    requires t.Nil?
    ensures Flat(Nil) + [e] + Flat(Nil) == Ins(Flat(t), e)
  {
  }

  // A key that is not in a tree is not in the child that is searched for it.
  lemma KidKeeps(t: Tree, i: nat, e: Entry)
    requires t.Br? && |t.ks| == |t.es| + 1 && i == Rank(t.es, e.id) && Sorted(Flat(t)) && !Has(Flat(t), e.id)
    ensures (i < |t.es| ==> t.es[i].id != e.id) && Sorted(Flat(t.ks[i])) && !Has(Flat(t.ks[i]), e.id)
  {
    hide Weave, Lft, Rgt, Rank, Sorted;
    if i < |t.es| {
      FocusEntry(t.es, t.ks, i);
      assert Flat(t)[|Weave(t.es[..i], t.ks[..i + 1])|] == t.es[i];
    }
    Descend(t.es, t.ks, e.id);
    Focus(t.es, t.ks, i);
    HasMid(Lft(t.es, t.ks, i), Flat(t.ks[i]), Rgt(t.es, t.ks, i), e.id);
  }

  lemma TakenInPlace(t: Tree, i: nat, up: Rising)
    requires t.Br? && |t.ks| == |t.es| + 1 && i <= |t.es| && Rank(t.es, up.sep.id) == i
    ensures TakenIn(t, i, up) == Swollen(t, i, up.kid, up.sep, up.greater)
  {
    var ks := t.ks[i := up.kid];
    assert ks[..i + 1] == t.ks[..i] + [up.kid] && ks[i + 1..] == t.ks[i + 1..];
  }

  // With the bubble kept active an insertion is right exactly when every node on the search path
  // is full.
  lemma BubbleKept(t: Tree, h: nat, m: int, c: nat, e: Entry)
    requires Shape(t, h, m, c) && c > 0 && Sorted(Flat(t)) && !Has(Flat(t), e.id)
    ensures Flat(KeptTop(t, h, m, c, e)) == Ins(Flat(t), e) <==> Bubbles(t, e.id, c)
  {
    hide Flat, Rank, Sorted, Has, Kept;
    var up := Kept(t, h, m, c, e);
    RootParts(KeptTop(t, h, m, c, e), up.kid, up.greater);
    KeptSize(t, h, m, c, e);
    if Bubbles(t, e.id, c) { KeptFull(t, h, m, c, e); }
  }

  // btree_fixup keeps the address of the median while the bubble goes into one of the halves: the
  // node after that, if the bubble is not the median itself.
  ghost function LeftHalf(n: Node, idx: nat, e: Entry, gt: Sector): Node
    requires |n.ch| == |n.es| + 1 && idx < |n.es|
  {
    var kept := Cut(n, idx + 1);
    if e.id > n.es[idx].id then kept else NodeIns(kept, e, gt)
  }

  // bnode_extract demands that the address is that of the last entry. It is, and still that of the
  // median, exactly when the bubble belongs right of the median.
  lemma MedianAddress(n: Node, c: nat, e: Entry, gt: Sector)
    requires |n.ch| == |n.es| + 1 && |n.es| == c && 2 <= c && c % 2 == 0 && Sorted(n.es) && !Has(n.es, e.id)
    requires Rank(n.es, e.id) != c / 2
    ensures var r, idx := Rank(n.es, e.id), if Rank(n.es, e.id) > c / 2 then c / 2 else c / 2 - 1;
      var l := LeftHalf(n, idx, e, gt);
      && (idx == |l.es| - 1 <==> r > c / 2)
      && (l.es[idx] == n.es[idx] <==> r > c / 2)
  {
    var r := Rank(n.es, e.id);
    MedianSide(n.es, e, c / 2);
    if r < c / 2 {
      RankHead(n, e, c / 2);
      var kept := Cut(n, c / 2);
      assert n.es[c / 2 - 1].id != e.id;
      assert NodeIns(kept, e, gt).es == Put(kept.es, r, e);
      PutMoves(kept.es, r, e, c / 2 - 1);
    }
  }

  // In a sorted list the last element is another one once something went in before it.
  lemma PutMoves(es: seq<Entry>, r: nat, e: Entry, i: nat)
    requires Sorted(es) && !Has(es, e.id) && r <= i < |es|
    ensures Put(es, r, e)[i] != es[i]
  {
    HasRank(es, e.id);
    if r == i {
      assert Put(es, r, e)[i] == e && es[i].id != e.id;
    } else {
      assert Put(es, r, e)[i] == es[i - 1] && es[i - 1].id < es[i].id;
    }
  }

  // bnode_bin_insert clears child 0 of a node without entries.
  ghost function WipingIns(n: Node, e: Entry, gt: Sector): Node
    requires |n.ch| == |n.es| + 1
  {
    NodeIns(if n.es == [] then Node([], [0]) else n, e, gt)
  }

  lemma WipingRight(n: Node, e: Entry, gt: Sector)
    requires |n.ch| == |n.es| + 1
    ensures WipingIns(n, e, gt) == NodeIns(n, e, gt) <==> n.es != [] || n.ch[0] == 0
  {
    if n.es == [] {
      assert n.ch == [n.ch[0]];
      InsEmpty(n.ch[0], e, gt);
      InsEmpty(0, e, gt);
    }
  }

  // So a new root loses the old one, and keeps all entries exactly when there were none.
  lemma WipedRoot(sec: Sector, l: Tree, x: Entry, r: Tree)
    ensures Flat(Br(sec, [x], [Nil, r])) == Flat(l) + [x] + Flat(r) <==> Flat(l) == []
  {
    hide Flat;
    RootParts(Br(sec, [x], [Nil, r]), Nil, r);
    NilFlat(Nil);
    if Flat(l) == [] {
    } else {
      assert |[] + [x] + Flat(r)| < |Flat(l) + [x] + Flat(r)|;
    }
  }

  // The sectors btree_insert reads as nodes: child 0 of a leaf is one of them.
  ghost function Reads(t: Tree, k: nat): seq<Sector> {
    if t.Nil? then [0]
    else if Rank(t.es, k) < |t.es| && t.es[Rank(t.es, k)].id == k then [t.sec]
    else [t.sec] + if Rank(t.es, k) < |t.ks| then Reads(t.ks[Rank(t.es, k)], k) else []
  }

  // Sector 0 holds the super block. It stays unread exactly when the key is in the subtree.
  lemma {:induction false} ReadsSuper(b: map<Sector, Block>, av: set<Sector>, t: Tree, h: nat, m: int, c: nat, k: nat)
    requires Stored(b, av, t, h, m, c)
    ensures 0 in Reads(t, k) <==> !Has(Flat(t), k)
    decreases h
  {
    hide Flat, Rank, Stored, Has;
    if t.Nil? {
      assert !Has(Flat(t), k) by { NilHas(t, k); }
    } else {
      var i := Rank(t.es, k);
      StoredHeight(b, av, t, h, m, c);
      StoredNode(b, av, t, h, m, c);
      if i < |t.es| && t.es[i].id == k {
        StoredHit(b, av, t, h, m, c, i);
      } else {
        StoredKid(b, av, t, h, m, c, k, i);
        ReadsSuper(b, av, t.ks[i], h - 1, c / 2, c, k);
      }
    }
  }

  lemma NilHas(t: Tree, k: nat)
    requires t.Nil?
    ensures !Has(Flat(t), k)
  {
  }

  // What spfs_btree_insert reads in all: nothing for an empty tree.
  ghost function ReadsTop(start: Sector, t: Tree, k: nat): seq<Sector> {
    if start == 0 then [] else Reads(t, k)
  }

  // The insertion stays clear of the super block exactly when the index is empty or has the key.
  lemma InsertReadsSuper(tree: BTree, k: nat)
    requires tree.Valid()
    ensures 0 in ReadsTop(tree.start, tree.tree, k) <==> tree.start != 0 && k !in tree.Index()
  {
    hide Flat, Rank, Stored, Has, Homes, Inodes;
    ReadsSuper(tree.disk.blocks, tree.free.Avail(), tree.tree, tree.height, 1, tree.c, k);
    InodesKey(tree.disk.blocks, Flat(tree.tree), Secs(tree.tree), tree.free.Avail(), k);
  }

  // bnode_alloc_root builds the new root in the sector of the old one.
  function RootMisplaced(b: map<Sector, Block>, start: Sector, bub: Bubble): map<Sector, Block> {
    b[start := NodeB(Node([bub.entry], [start, bub.greater]))]
  }

  // It is never right: the sector the index starts at afterwards holds no node at all, so no tree
  // whatsoever is stored there; and in an empty index the super block is overwritten.
  lemma RootNeverThere(b: map<Sector, Block>, start: Sector, root: Sector, bub: Bubble)
    requires root != 0 && root != start && root in b && b[root].Raw?
    ensures forall t: Tree :: Root(t) == root ==> !Rep(RootMisplaced(b, start, bub), t)
    ensures start == 0 ==> 0 in RootMisplaced(b, start, bub) && RootMisplaced(b, start, bub)[0].NodeB?
  {
    forall t: Tree | Root(t) == root ensures !Rep(RootMisplaced(b, start, bub), t) {
      assert t.Br? && t.sec == root;
    }
  }

  // btree_insert answers 1 to a duplicate and to a full device alike.
  function Answer(res: Res): nat {
    match res
    case Ok => 0
    case Duplicate => 1
    case NoSpace => 1
    case Bug => 2
  }

  // The answer 1 tells a duplicate exactly when more than one block is free, or there is one.
  lemma AnswerTells(t: Tree, k: nat, blocks: nat, c: nat)
    ensures (Answer(TopResult(t, k, blocks, c)) == 1 <==> Has(Flat(t), k)) <==> blocks > 1 || Has(Flat(t), k)
  {
  }

  // Inputs on which the source goes wrong.
  lemma FrontPutFails()
    ensures var es := [Entry(1, 10)]; Sorted(es) && !Has(es, 2) && !Sorted(FrontPut(es, Entry(2, 20)))
  {
    var es := [Entry(1, 10)];
    RankIs(es, 2, 1);
    FrontPutSorted(es, Entry(2, 20));
  }

  lemma ChildLastFails()
    ensures [5, 6] + [7] != Put([5, 6], 1, 7)
  {
    ChildLast([5, 6], 0, 7);
    assert [5, 6][1] != 7;
  }

  // A leaf with room.
  function OneLeaf(): Tree {
    Br(9, [Entry(1, 10)], [Nil, Nil])
  }

  lemma OneLeafFlat()
    ensures Flat(OneLeaf()) == [Entry(1, 10)] && Shape(OneLeaf(), 1, 1, 100) && Rank(OneLeaf().es, 2) == 1
  {
    RankIs(OneLeaf().es, 2, 1);
    RootWeave(Nil, Entry(1, 10), Nil);
    NilFlat(Nil);
  }

  lemma BubbleKeptFails()
    ensures Shape(OneLeaf(), 1, 1, 100)
    ensures Flat(KeptTop(OneLeaf(), 1, 1, 100, Entry(2, 20))) != Ins(Flat(OneLeaf()), Entry(2, 20))
  {
    hide Flat, Rank, Kept;
    OneLeafFlat();
    BubbleKept(OneLeaf(), 1, 1, 100, Entry(2, 20));
  }

  lemma ReadsSuperFails()
    ensures 0 in Reads(OneLeaf(), 2) && 0 !in Reads(OneLeaf(), 1)
  {
    OneLeafFlat();
    RankIs(OneLeaf().es, 1, 0);
    assert Reads(OneLeaf(), 2) == [9] + Reads(Nil, 2);
  }

  // A leaf of 100 entries, and a key below all of them.
  lemma MedianAddressFails()
    ensures var n := Node(seq(100, i requires 0 <= i => Entry(i + 2, 10)), seq(101, i => 0));
      LeftHalf(n, 49, Entry(1, 10), 0).es[49] != n.es[49]
  {
    var n := Node(seq(100, i requires 0 <= i => Entry(i + 2, 10)), seq(101, i => 0));
    RankIs(n.es, 1, 0);
    MedianAddress(n, 100, Entry(1, 10), 0);
  }

  lemma WipingFails()
    ensures WipingIns(Node([], [3]), Entry(1, 10), 5) != NodeIns(Node([], [3]), Entry(1, 10), 5)
  {
    WipingRight(Node([], [3]), Entry(1, 10), 5);
  }
}
