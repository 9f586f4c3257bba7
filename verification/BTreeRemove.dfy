// Removal from the inode index (btree_remove.c).

module BTreeRemoves {
  import opened Entries
  import opened Disks
  import opened FreeLists
  import opened BNodes
  import opened Trees
  import opened Layouts
  import opened Shrinks
  import opened Rewrites
  import opened BTrees

  // order() / 2
  function MinimumOrder(c: nat): nat {
    (c + 1) / 2
  }

  predicate IsDeficient(length: nat, c: nat) {
    length < MinimumOrder(c)
  }

  // How a child left of the pivot (or right of it) is balanced with its sibling: an entry moves over
  // from a sibling with more than c / 2; otherwise the two are merged when either is deficient, and
  // left alone when neither is. The node and the two children are all that is written.
  ghost predicate Balanced(b: map<Sector, Block>, b': map<Sector, Block>, t: Tree, t': Tree, p: nat, left: bool,
                           c: nat, merged: bool)
  {
    Branching(t) && p < |t.es| && Branching(t.ks[p]) && Branching(t.ks[p + 1]) &&
    var l, x, r := t.ks[p], t.es[p], t.ks[p + 1];
    if left && |r.es| > c / 2 then
      !merged && OnlyAt(b, b', {t.sec, l.sec, r.sec}) && t' == Paired(t, p, LeftGains(l, x, r), r.es[0], RightLoses(r))
    else if !left && |l.es| > c / 2 then
      !merged && OnlyAt(b, b', {t.sec, l.sec, r.sec})
      && t' == Paired(t, p, LeftLoses(l), l.es[|l.es| - 1], RightGains(l, x, r))
    else if |l.es| < c / 2 || |r.es| < c / 2 then
      merged && OnlyAt(b, b', {t.sec, l.sec}) && t' == Fused(t, p, Merged(l, x, r))
    else !merged && b' == b && t' == t
  }

  // rebalance; the answer says whether the parent lost an entry to a merge.
  method Rebalance(self: BTree, s: Sector, buf: BNode, p: nat, left: bool, ghost t: Tree, ghost h: nat,
                   ghost av: set<Sector>)
    returns (cont: bool, ghost t': Tree)
    requires buf.Valid() && 2 <= self.c && self.c % 2 == 0 && t.Br? && s == t.sec
    requires Unbalanced(self.disk.blocks, av, t, p, left, h, self.c) && buf.View() == Node(t.es, Roots(t.ks))
    modifies self.disk, buf, buf.entries, buf.children
    ensures Rebalanced(self.disk.blocks, t, t', h, self.c, cont)
    ensures SameOff(old(self.disk.blocks), self.disk.blocks, Secs(t), {})
    ensures Balanced(old(self.disk.blocks), self.disk.blocks, t, t', p, left, self.c, cont)
  {
    hide BNode.View, Flat, Secs, Sorted, Roots, Rep, Shape, Lone, ShapeBut;
    PairShape(t, p, left, h, self.c);
    PairStored(self.disk.blocks, t, p);
    var lSec := buf.GetChild(p);
    var rSec := buf.GetChild(p + 1);
    var lbuf := new BNode.Parse(self.c, self.disk.blocks[lSec].node);
    var rbuf := new BNode.Parse(self.c, self.disk.blocks[rSec].node);
    if left && rbuf.length > MinimumOrder(self.c) {
      t' := RotateFromRight(self, s, buf, lbuf, rbuf, lSec, rSec, p, t, h, av);
      return false, t';
    }
    if !left && lbuf.length > MinimumOrder(self.c) {
      t' := RotateFromLeft(self, s, buf, lbuf, rbuf, lSec, rSec, p, t, h, av);
      return false, t';
    }
    if !IsDeficient(lbuf.length, self.c) && !IsDeficient(rbuf.length, self.c) {
      SameOffRefl(self.disk.blocks, Secs(t), {});
      NothingToDo(self.disk.blocks, av, t, p, left, h, self.c);
      return false, t;
    }
    t' := MergeSiblings(self, s, buf, lbuf, rbuf, lSec, p, left, t, h, av);
    return true, t';
  }

  // The buffers of a node and of the two children around the pivot.
  ghost predicate Loaded(t: Tree, p: nat, buf: BNode, lbuf: BNode, rbuf: BNode, c: nat)
    reads buf, buf.entries, buf.children, lbuf, lbuf.entries, lbuf.children, rbuf, rbuf.entries, rbuf.children
  {
    && buf.Valid() && lbuf.Valid() && rbuf.Valid() && lbuf.c == rbuf.c == c
    && buf != lbuf && buf != rbuf && lbuf != rbuf
    && buf.entries != lbuf.entries && buf.entries != rbuf.entries && lbuf.entries != rbuf.entries
    && buf.children != lbuf.children && buf.children != rbuf.children && lbuf.children != rbuf.children
    && Branching(t) && p < |t.es| && Branching(t.ks[p]) && Branching(t.ks[p + 1])
    && buf.View() == Node(t.es, Roots(t.ks))
    && lbuf.View() == Node(t.ks[p].es, Roots(t.ks[p].ks))
    && rbuf.View() == Node(t.ks[p + 1].es, Roots(t.ks[p + 1].ks))
  }

  // Left of the pivot is deficient and the right sibling can spare an entry.
  method RotateFromRight(self: BTree, s: Sector, buf: BNode, lbuf: BNode, rbuf: BNode, lSec: Sector, rSec: Sector,
                         p: nat, ghost t: Tree, ghost h: nat, ghost av: set<Sector>)
    returns (ghost t': Tree)
    requires Loaded(t, p, buf, lbuf, rbuf, self.c) && t.Br? && s == t.sec && 2 <= self.c && self.c % 2 == 0
    requires lSec == Root(t.ks[p]) && rSec == Root(t.ks[p + 1])
    requires Unbalanced(self.disk.blocks, av, t, p, true, h, self.c) && rbuf.length > MinimumOrder(self.c)
    modifies self.disk, buf.entries, lbuf, lbuf.entries, lbuf.children, rbuf`length, rbuf.entries, rbuf.children
    ensures Rebalanced(self.disk.blocks, t, t', h, self.c, false)
    ensures SameOff(old(self.disk.blocks), self.disk.blocks, Secs(t), {})
    ensures var l, x, r := t.ks[p], t.es[p], t.ks[p + 1];
      && Branching(l) && Branching(r) && |r.es| > 0
      && t' == Paired(t, p, LeftGains(l, x, r), r.es[0], RightLoses(r))
      && OnlyAt(old(self.disk.blocks), self.disk.blocks, {t.sec, l.sec, r.sec})
  {
    hide BNode.View, Flat, Secs, Sorted, Roots, Rep, Shape, Lone, Below, Rank, Without, LeftGains, RightLoses, Paired,
      Rebalanced, SameOff, Unbalanced, WriteThree;
    ghost var b0, l, x, r := self.disk.blocks, t.ks[p], t.es[p], t.ks[p + 1];
    UnbalancedPair(b0, av, t, p, true, h, self.c);
    RotateLeftNodes(l, x, r);
    var pivot := buf.GetEntry(p);
    var rightSmallest := rbuf.GetChild(0);
    var ok := lbuf.AppendGreatest(pivot, rightSmallest);
    var up := rbuf.TakeAt(0, 0);
    buf.SetEntry(p, up);
    assert lbuf.View() == Node(LeftGains(l, x, r).es, Roots(LeftGains(l, x, r).ks));
    assert rbuf.View() == Node(RightLoses(r).es, Roots(RightLoses(r).ks));
    assert buf.View() == Node(t.es[p := r.es[0]], Roots(t.ks));
    self.disk.blocks := WriteThree(self.disk.blocks, lSec, lbuf.View(), rSec, rbuf.View(), s, buf.View());
    UnbalancedSecs(b0, av, t, p, true, h, self.c);
    ThreeWritten(b0, l.sec, lbuf.View(), r.sec, rbuf.View(), t.sec, buf.View());
    t' := Paired(t, p, LeftGains(l, x, r), up, RightLoses(r));
    RotatedFromRight(b0, self.disk.blocks, av, t, p, h, self.c);
  }

  method RotateFromLeft(self: BTree, s: Sector, buf: BNode, lbuf: BNode, rbuf: BNode, lSec: Sector, rSec: Sector,
                        p: nat, ghost t: Tree, ghost h: nat, ghost av: set<Sector>)
    returns (ghost t': Tree)
    requires Loaded(t, p, buf, lbuf, rbuf, self.c) && t.Br? && s == t.sec && 2 <= self.c && self.c % 2 == 0
    requires lSec == Root(t.ks[p]) && rSec == Root(t.ks[p + 1])
    requires Unbalanced(self.disk.blocks, av, t, p, false, h, self.c) && lbuf.length > MinimumOrder(self.c)
    modifies self.disk, buf.entries, rbuf, rbuf.entries, rbuf.children, lbuf`length, lbuf.entries, lbuf.children
    ensures Rebalanced(self.disk.blocks, t, t', h, self.c, false)
    ensures SameOff(old(self.disk.blocks), self.disk.blocks, Secs(t), {})
    ensures var l, x, r := t.ks[p], t.es[p], t.ks[p + 1];
      && Branching(l) && Branching(r) && |l.es| > 0
      && t' == Paired(t, p, LeftLoses(l), l.es[|l.es| - 1], RightGains(l, x, r))
      && OnlyAt(old(self.disk.blocks), self.disk.blocks, {t.sec, l.sec, r.sec})
  {
    hide BNode.View, Flat, Secs, Sorted, Roots, Rep, Shape, Lone, Above, Rank, Put, Without, LeftLoses, RightGains,
      Paired, Rebalanced, SameOff, Unbalanced, WriteThree;
    ghost var b0, l, x, r := self.disk.blocks, t.ks[p], t.es[p], t.ks[p + 1];
    UnbalancedPair(b0, av, t, p, false, h, self.c);
    AboveRank(r.es, x.id);
    RotateRightNodes(l, x, r);
    var pivot := buf.GetEntry(p);
    var leftGreatest := lbuf.GetChild(lbuf.length);
    var ok := rbuf.BinInsertLess(leftGreatest, pivot);
    var last := lbuf.length - 1;
    var up := lbuf.TakeAt(last, last + 1);
    buf.SetEntry(p, up);
    assert lbuf.View() == Node(LeftLoses(l).es, Roots(LeftLoses(l).ks));
    assert rbuf.View() == Node(RightGains(l, x, r).es, Roots(RightGains(l, x, r).ks));
    assert buf.View() == Node(t.es[p := l.es[|l.es| - 1]], Roots(t.ks));
    self.disk.blocks := WriteThree(self.disk.blocks, lSec, lbuf.View(), rSec, rbuf.View(), s, buf.View());
    UnbalancedSecs(b0, av, t, p, false, h, self.c);
    ThreeWritten(b0, l.sec, lbuf.View(), r.sec, rbuf.View(), t.sec, buf.View());
    t' := Paired(t, p, LeftLoses(l), up, RightGains(l, x, r));
    RotatedFromLeft(b0, self.disk.blocks, av, t, p, h, self.c);
  }

  // Both at the minimum: left, separator and right become one node, the right sector is garbage.
  method MergeSiblings(self: BTree, s: Sector, buf: BNode, lbuf: BNode, rbuf: BNode, lSec: Sector, p: nat,
                       ghost left: bool, ghost t: Tree, ghost h: nat, ghost av: set<Sector>)
    returns (ghost t': Tree)
    requires Loaded(t, p, buf, lbuf, rbuf, self.c) && t.Br? && s == t.sec && 2 <= self.c && self.c % 2 == 0
    requires lSec == Root(t.ks[p])
    requires Unbalanced(self.disk.blocks, av, t, p, left, h, self.c)
    requires lbuf.length + rbuf.length < self.c
    modifies self.disk, buf, buf.entries, buf.children, lbuf`length, lbuf.entries, lbuf.children
    ensures Rebalanced(self.disk.blocks, t, t', h, self.c, true)
    ensures SameOff(old(self.disk.blocks), self.disk.blocks, Secs(t), {})
    ensures var l, x, r := t.ks[p], t.es[p], t.ks[p + 1];
      && Branching(l) && Branching(r) && t' == Fused(t, p, Merged(l, x, r))
      && OnlyAt(old(self.disk.blocks), self.disk.blocks, {t.sec, l.sec})
  {
    hide BNode.View, Flat, Secs, Sorted, Roots, Rep, Shape, Lone, Rank, Without;
    ghost var b0, l, x, r := self.disk.blocks, t.ks[p], t.es[p], t.ks[p + 1];
    var pivot := buf.GetEntry(p);
    var ok := lbuf.MergeIn(pivot, rbuf);
    var gone := buf.TakeAt(p, p + 1);
    self.disk.blocks := self.disk.blocks[lSec := NodeB(lbuf.View())][s := NodeB(buf.View())];
    UnbalancedSecs(b0, av, t, p, left, h, self.c);
    t' := Fused(t, p, Merged(l, x, r));
    RootsAppend(l.ks, r.ks);
    MergedSiblings(b0, self.disk.blocks, av, t, p, left, h, self.c);
  }

  // What taking something out of a subtree wrote, and what it says to the node above.
  ghost predicate Took(b: map<Sector, Block>, b': map<Sector, Block>, t: Tree, t': Tree, aim: Aim, c: nat,
                       balance: bool)
  {
    && OnlyAt(b, b', Rewritten(t, aim, c)) && (balance <==> Short(t, aim, c))
    && (balance ==> Held(t') == Held(t) - 1)
  }

  lemma TookLeaf(b: map<Sector, Block>, b': map<Sector, Block>, t: Tree, t': Tree, aim: Aim, c: nat, balance: bool)
    requires t.Br? && !Inner(t) && t'.Br? && |t'.es| == |t.es| - 1 && (balance <==> |t'.es| < c / 2)
    requires OnlyAt(b, b', {t.sec})
    ensures Took(b, b', t, t', aim, c, balance)
  {
  }

  // An entry of the node itself is overwritten once the child has given up its predecessor.
  ghost function AtHit(t: Tree, aim: Aim): set<Sector>
    requires t.Br?
  {
    if Hits(t, aim) then {t.sec} else {}
  }

  // The child is not short: nothing more is written.
  lemma TookQuiet(b: map<Sector, Block>, b1: map<Sector, Block>, b2: map<Sector, Block>, t: Tree, k: Tree, t1: Tree,
                  aim: Aim, c: nat)
    requires Inner(t) && Took(b, b1, t.ks[Turn(t, aim)], k, Next(t, aim), c, false) && OnlyAt(b1, b2, AtHit(t, aim))
    ensures Took(b, b2, t, t1, aim, c, false)
  {
    hide OnlyAt;
    OnlyThen(b, b1, b2, Rewritten(t.ks[Turn(t, aim)], Next(t, aim), c), AtHit(t, aim), Rewritten(t, aim, c));
  }

  // The child is short and was balanced.
  lemma TookBalanced(b: map<Sector, Block>, b1: map<Sector, Block>, b2: map<Sector, Block>, b3: map<Sector, Block>,
                     t: Tree, k: Tree, t1: Tree, t2: Tree, aim: Aim, p: nat, left: bool, c: nat, merged: bool)
    requires Inner(t) && Took(b, b1, t.ks[Turn(t, aim)], k, Next(t, aim), c, true) && OnlyAt(b1, b2, AtHit(t, aim))
    requires Turn(t, aim) == (if left then p else p + 1) && Partner(t, Turn(t, aim)) == if left then p + 1 else p
    requires Balanced(b2, b3, t1, t2, p, left, c, merged)
    requires t1.Br? && t1.sec == t.sec && |t1.es| == |t.es| && |t1.ks| == |t.ks|
    requires var i, j := Turn(t, aim), Partner(t, Turn(t, aim));
      && t1.ks[i] == k && t1.ks[j] == t.ks[j] && Root(k) == Root(t.ks[i])
      && Held(t.ks[i]) >= c / 2 && Held(t.ks[j]) >= c / 2
    ensures Took(b, b3, t, t2, aim, c, merged)
  {
    hide OnlyAt;
    var i, j, w := Turn(t, aim), Partner(t, Turn(t, aim)), Rewritten(t, aim, c);
    OnlyThen(b, b1, b2, Rewritten(t.ks[i], Next(t, aim), c), AtHit(t, aim), w);
    OnlySame(b2);
    if t1.ks[p].Br? && t1.ks[p + 1].Br? {
      if b2 == b3 {
        OnlyThen(b, b2, b3, w, {}, w);
      } else if merged {
        OnlyThen(b, b2, b3, w, {t1.sec, t1.ks[p].sec}, w);
      } else {
        OnlyThen(b, b2, b3, w, {t1.sec, t1.ks[p].sec, t1.ks[p + 1].sec}, w);
      }
    }
  }

  lemma OnlyOne(b: map<Sector, Block>, x: Sector, v: Block)
    requires x in b
    ensures OnlyAt(b, b[x := v], {x})
  {
  }

  lemma TookKeys(b: map<Sector, Block>, b': map<Sector, Block>, t: Tree, t': Tree, aim: Aim, c: nat, balance: bool)
    requires Took(b, b', t, t', aim, c, balance)
    ensures b'.Keys == b.Keys
  {
  }

  lemma OnlySame(b: map<Sector, Block>)
    ensures OnlyAt(b, b, {})
  {
  }

  // The same for a child that gave up the successor, balanced with the sibling on its left.
  lemma SuccessorTook(b: map<Sector, Block>, b1: map<Sector, Block>, b2: map<Sector, Block>, t: Tree, p: nat, k: Tree,
                      c: nat, short: bool)
    requires Branching(t) && p < |t.es| && Took(b, b1, t.ks[p + 1], k, Least, c, short) && OnlyAt(b1, b2, {t.sec})
    ensures OnlyAt(b, b2, Rewritten(t.ks[p + 1], Least, c) + {t.sec, Root(t.ks[p + 1]), Root(t.ks[p])})
    ensures (short <==> Short(t.ks[p + 1], Least, c)) && (short ==> Held(k) == Held(t.ks[p + 1]) - 1)
  {
  }

  lemma SuccessorBalanced(b: map<Sector, Block>, b2: map<Sector, Block>, b3: map<Sector, Block>, t: Tree, t1: Tree,
                          t2: Tree, p: nat, k: Tree, c: nat, merged: bool)
    requires Branching(t) && p < |t.es| && Balanced(b2, b3, t1, t2, p, false, c, merged)
    requires OnlyAt(b, b2, Rewritten(t.ks[p + 1], Least, c) + {t.sec, Root(t.ks[p + 1]), Root(t.ks[p])})
    requires t1.Br? && t1.sec == t.sec && |t1.ks| == |t.ks| && t1.ks[p] == t.ks[p] && t1.ks[p + 1] == k
    requires Root(k) == Root(t.ks[p + 1]) && Held(k) == Held(t.ks[p + 1]) - 1
    requires Held(t.ks[p]) >= c / 2 && Held(t.ks[p + 1]) >= c / 2
    ensures OnlyAt(b, b3, Rewritten(t.ks[p + 1], Least, c) + {t.sec, Root(t.ks[p + 1]), Root(t.ks[p])})
    ensures merged <==> Lean(t.ks[p + 1], c) && Lean(t.ks[p], c)
  {
    hide Rewritten;
  }

  // What the shape says about the node and its children.
  lemma Holding(b: map<Sector, Block>, av: set<Sector>, t: Tree, h: nat, m: int, c: nat)
    requires Stored(b, av, t, h, m, c) && h > 0 && m > 0
    ensures t.Br? && (Inner(t) <==> h > 1)
    ensures h > 1 ==> forall i :: 0 <= i < |t.ks| ==> t.ks[i].Br? && Held(t.ks[i]) >= c / 2
  {
    LeafLevel(b, av, t, h, m, c);
    assert ShapeAll(t.ks, h - 1, c);
    if h > 1 {
      forall i | 0 <= i < |t.ks| ensures Held(t.ks[i]) >= c / 2 { assert Shape(t.ks[i], h - 1, c / 2, c); }
    }
  }

  // take_leaf
  method TakeLeaf(self: BTree, s: Sector, buf: BNode, idx: nat, ghost t: Tree, ghost m: nat)
    returns (out: Entry, balance: bool, ghost t': Tree)
    requires 2 <= self.c && self.c % 2 == 0 && 1 <= m <= self.c / 2 && buf.Valid() && s == Root(t)
    requires Stored(self.disk.blocks, self.free.Avail(), t, 1, m, self.c) && idx < |t.es|
    requires buf.View() == Node(t.es, Roots(t.ks))
    modifies self.disk, buf`length, buf.entries, buf.children
    ensures Trimmed(self.disk.blocks, t, t', 1, m, self.c, balance)
    ensures t.Br? && t'.Br? && |t'.es| == |t.es| - 1 && (balance <==> |t'.es| < self.c / 2)
    ensures OnlyAt(old(self.disk.blocks), self.disk.blocks, {t.sec})
    ensures idx < |Flat(t)| && Flat(t') == Without(Flat(t), idx) && out == Flat(t)[idx] == t.es[idx]
    ensures SameOff(old(self.disk.blocks), self.disk.blocks, Secs(t), {})
  {
    hide BNode.View, Flat, Secs, Roots, Rep, Shape, Lone, Without, Sorted, Above;
    StoredNode(self.disk.blocks, self.free.Avail(), t, 1, m, self.c);
    PluckedLeaf(self.disk.blocks, self.free.Avail(), t, m, self.c, idx);
    out := buf.TakeAt(idx, idx + 1);
    self.disk.blocks := self.disk.blocks[s := NodeB(buf.View())];
    balance := IsDeficient(buf.length, self.c);
    t' := Plucked(t, idx);
  }

  // take_max: the greatest entry of a subtree leaves it.
  method TakeMax(self: BTree, s: Sector, ghost t: Tree, ghost h: nat, ghost m: nat)
    returns (out: Entry, balance: bool, ghost t': Tree)
    requires 2 <= self.c && self.c % 2 == 0 && 1 <= m <= self.c / 2 && s == Root(t) && h > 0
    requires Stored(self.disk.blocks, self.free.Avail(), t, h, m, self.c)
    modifies self.disk
    ensures Trimmed(self.disk.blocks, t, t', h, m, self.c, balance)
    ensures Took(old(self.disk.blocks), self.disk.blocks, t, t', Greatest, self.c, balance)
    ensures Flat(t) == Flat(t') + [out]
    ensures SameOff(old(self.disk.blocks), self.disk.blocks, Secs(t), {})
    decreases h
  {
    hide BNode.View, Flat, Secs, Roots, Rep, Shape, Lone, Sorted, Above, Without, FreeList.Avail, Unbalanced,
      ShapeBut, Balanced, Took, OnlyAt, Inner, Short, Rewritten;
    ghost var b0, av := self.disk.blocks, self.free.Avail();
    StoredNode(b0, av, t, h, m, self.c);
    LeafLevel(b0, av, t, h, m, self.c);
    Holding(b0, av, t, h, m, self.c);
    StoredMin(b0, av, t, h, m, self.c);
    var buf := new BNode.Parse(self.c, self.disk.blocks[s].node);
    var leaf := buf.IsLeaf();
    assert buf.View().ch == Roots(t.ks);
    if leaf {
      assert h == 1;
      out, balance, t' := TakeLeaf(self, s, buf, buf.length - 1, t, m);
      TookLeaf(b0, self.disk.blocks, t, t', Greatest, self.c, balance);
      LeafContents(b0, av, t, m, self.c);
      WithoutLast(Flat(t));
      return;
    }
    var greatest := buf.GetChild(buf.length);
    ghost var n := |t.es|;
    ghost var k;
    StoredAnyKid(b0, av, t, h, m, self.c, n);
    out, balance, k := TakeMax(self, greatest, t.ks[n], h - 1, self.c / 2);
    MaxOrder(t, k, out);
    TrimmedKid(b0, self.disk.blocks, av, t, n, k, h, m, self.c, balance);
    t' := Exchanged(t, n, k);
    ghost var t1, b1 := t', self.disk.blocks;
    OnlySame(b1);
    if balance {
      MakeUnbalanced(b1, av, t1, n - 1, false, h - 1, self.c);
      balance, t' := Rebalance(self, s, buf, buf.length - 1, false, t1, h - 1, av);
      RebalancedTrims(self.disk.blocks, t, t1, t', h, m, self.c, balance);
      SameOffSmaller(b0, b1, self.disk.blocks, Secs(t), Secs(t1));
      TookBalanced(b0, b1, b1, self.disk.blocks, t, k, t1, t', Greatest, n - 1, false, self.c, balance);
    } else {
      TookQuiet(b0, b1, b1, t, k, t', Greatest, self.c);
    }
  }

  // take_int_node: the predecessor of the entry takes its place.
  method TakeIntNode(self: BTree, s: Sector, buf: BNode, idx: nat, ghost t: Tree, ghost h: nat, ghost m: nat)
    returns (balance: bool, ghost t': Tree)
    requires 2 <= self.c && self.c % 2 == 0 && 1 <= m <= self.c / 2 && s == Root(t) && h > 1
    requires Stored(self.disk.blocks, self.free.Avail(), t, h, m, self.c) && idx < |t.es|
    requires buf.Valid() && buf.View() == Node(t.es, Roots(t.ks))
    modifies self.disk, buf, buf.entries, buf.children
    ensures Trimmed(self.disk.blocks, t, t', h, m, self.c, balance)
    ensures Took(old(self.disk.blocks), self.disk.blocks, t, t', Key(t.es[idx].id), self.c, balance)
    ensures Flat(t') == Rem(Flat(t), t.es[idx].id)
    ensures SameOff(old(self.disk.blocks), self.disk.blocks, Secs(t), {})
  {
    hide BNode.View, Flat, Secs, Roots, Rep, Shape, Lone, Sorted, Above, Rem, FreeList.Avail, Unbalanced, ShapeBut,
      Balanced, Took, OnlyAt, Inner, Short, Rewritten;
    ghost var b0, av := self.disk.blocks, self.free.Avail();
    StoredNode(b0, av, t, h, m, self.c);
    Holding(b0, av, t, h, m, self.c);
    StoredMin(b0, av, t, h, m, self.c);
    StoredAnyKid(b0, av, t, h, m, self.c, idx);
    var lt := buf.GetChild(idx);
    var pred;
    ghost var k;
    pred, balance, k := TakeMax(self, lt, t.ks[idx], h - 1, self.c / 2);
    ghost var bk, aim := self.disk.blocks, Key(t.es[idx].id);
    RankIs(t.es, t.es[idx].id, idx);
    PredOrder(t, idx, k, pred);
    PairedOne(t, idx, k, pred, t.ks[idx + 1]);
    KidAndEntry(b0, self.disk.blocks, av, t, idx, k, idx, pred, Paired(t, idx, k, pred, t.ks[idx + 1]), h, m, self.c,
                balance);
    buf.SetEntry(idx, pred);
    self.disk.blocks := self.disk.blocks[s := NodeB(buf.View())];
    t' := Paired(t, idx, k, pred, t.ks[idx + 1]);
    ghost var t1, b1 := t', self.disk.blocks;
    TookKeys(b0, bk, t.ks[idx], k, Greatest, self.c, balance);
    OnlyOne(bk, t.sec, NodeB(buf.View()));
    if balance {
      MakeUnbalanced(b1, av, t1, idx, true, h - 1, self.c);
      balance, t' := Rebalance(self, s, buf, idx, true, t1, h - 1, av);
      RebalancedTrims(self.disk.blocks, t, t1, t', h, m, self.c, balance);
      SameOffSmaller(b0, b1, self.disk.blocks, Secs(t), Secs(t1));
      TookBalanced(b0, bk, b1, self.disk.blocks, t, k, t1, t', aim, idx, true, self.c, balance);
    } else {
      TookQuiet(b0, bk, b1, t, k, t', aim, self.c);
    }
  }

  // take_min: the least entry of a subtree leaves it.
  method TakeMin(self: BTree, s: Sector, ghost t: Tree, ghost h: nat, ghost m: nat)
    returns (out: Entry, balance: bool, ghost t': Tree)
    requires 2 <= self.c && self.c % 2 == 0 && 1 <= m <= self.c / 2 && s == Root(t) && h > 0
    requires Stored(self.disk.blocks, self.free.Avail(), t, h, m, self.c)
    modifies self.disk
    ensures Trimmed(self.disk.blocks, t, t', h, m, self.c, balance)
    ensures Took(old(self.disk.blocks), self.disk.blocks, t, t', Least, self.c, balance)
    ensures Flat(t) == [out] + Flat(t')
    ensures SameOff(old(self.disk.blocks), self.disk.blocks, Secs(t), {})
    decreases h
  {
    hide BNode.View, Flat, Secs, Roots, Rep, Shape, Lone, Sorted, Above, Without, FreeList.Avail, Unbalanced,
      ShapeBut, Balanced, Took, OnlyAt, Inner, Short, Rewritten;
    ghost var b0, av := self.disk.blocks, self.free.Avail();
    StoredNode(b0, av, t, h, m, self.c);
    LeafLevel(b0, av, t, h, m, self.c);
    Holding(b0, av, t, h, m, self.c);
    StoredMin(b0, av, t, h, m, self.c);
    var buf := new BNode.Parse(self.c, self.disk.blocks[s].node);
    var leaf := buf.IsLeaf();
    assert buf.View().ch == Roots(t.ks);
    if leaf {
      assert h == 1;
      out, balance, t' := TakeLeaf(self, s, buf, 0, t, m);
      TookLeaf(b0, self.disk.blocks, t, t', Least, self.c, balance);
      LeafContents(b0, av, t, m, self.c);
      WithoutFirst(Flat(t));
      return;
    }
    var smallest := buf.GetChild(0);
    ghost var k;
    StoredAnyKid(b0, av, t, h, m, self.c, 0);
    out, balance, k := TakeMin(self, smallest, t.ks[0], h - 1, self.c / 2);
    MinOrder(t, k, out);
    TrimmedKid(b0, self.disk.blocks, av, t, 0, k, h, m, self.c, balance);
    t' := Exchanged(t, 0, k);
    ghost var t1, b1 := t', self.disk.blocks;
    OnlySame(b1);
    if balance {
      MakeUnbalanced(b1, av, t1, 0, true, h - 1, self.c);
      balance, t' := Rebalance(self, s, buf, 0, true, t1, h - 1, av);
      RebalancedTrims(self.disk.blocks, t, t1, t', h, m, self.c, balance);
      SameOffSmaller(b0, b1, self.disk.blocks, Secs(t), Secs(t1));
      TookBalanced(b0, b1, b1, self.disk.blocks, t, k, t1, t', Least, 0, true, self.c, balance);
    } else {
      TookQuiet(b0, b1, b1, t, k, t', Least, self.c);
    }
  }

  // The other branch of take_int_node, for a node without a left child: the successor of the
  // entry takes its place. No node of a valid index has use for it.
  method TakeSuccessor(self: BTree, s: Sector, buf: BNode, idx: nat, ghost t: Tree, ghost h: nat, ghost m: nat)
    returns (balance: bool, ghost t': Tree)
    requires 2 <= self.c && self.c % 2 == 0 && 1 <= m <= self.c / 2 && s == Root(t) && h > 1
    requires Stored(self.disk.blocks, self.free.Avail(), t, h, m, self.c) && idx < |t.es|
    requires buf.Valid() && buf.View() == Node(t.es, Roots(t.ks))
    modifies self.disk, buf, buf.entries, buf.children
    ensures Trimmed(self.disk.blocks, t, t', h, m, self.c, balance)
    ensures var kid, sib := t.ks[idx + 1], t.ks[idx];
      && OnlyAt(old(self.disk.blocks), self.disk.blocks,
                Rewritten(kid, Least, self.c) + {t.sec, Root(kid), Root(sib)})
      && (balance <==> Short(kid, Least, self.c) && Lean(kid, self.c) && Lean(sib, self.c))
    ensures Flat(t') == Rem(Flat(t), t.es[idx].id)
    ensures SameOff(old(self.disk.blocks), self.disk.blocks, Secs(t), {})
  {
    hide BNode.View, Flat, Secs, Roots, Rep, Shape, Lone, Sorted, Above, Rem, FreeList.Avail, Unbalanced, ShapeBut,
      Balanced, Took, OnlyAt, Short, Rewritten;
    ghost var b0, av := self.disk.blocks, self.free.Avail();
    StoredNode(b0, av, t, h, m, self.c);
    StoredMin(b0, av, t, h, m, self.c);
    Holding(b0, av, t, h, m, self.c);
    StoredAnyKid(b0, av, t, h, m, self.c, idx + 1);
    var gt := buf.GetChild(idx + 1);
    var succ;
    ghost var k;
    succ, balance, k := TakeMin(self, gt, t.ks[idx + 1], h - 1, self.c / 2);
    ghost var bk := self.disk.blocks;
    TookKeys(b0, bk, t.ks[idx + 1], k, Least, self.c, balance);
    SuccOrder(t, idx, k, succ);
    PairedOne(t, idx, t.ks[idx], succ, k);
    KidAndEntry(b0, self.disk.blocks, av, t, idx + 1, k, idx, succ, Paired(t, idx, t.ks[idx], succ, k), h, m, self.c,
                balance);
    buf.SetEntry(idx, succ);
    self.disk.blocks := self.disk.blocks[s := NodeB(buf.View())];
    t' := Paired(t, idx, t.ks[idx], succ, k);
    ghost var t1, b1 := t', self.disk.blocks;
    OnlyOne(bk, t.sec, NodeB(buf.View()));
    SuccessorTook(b0, bk, b1, t, idx, k, self.c, balance);
    if balance {
      MakeUnbalanced(b1, av, t1, idx, false, h - 1, self.c);
      balance, t' := Rebalance(self, s, buf, idx, false, t1, h - 1, av);
      RebalancedTrims(self.disk.blocks, t, t1, t', h, m, self.c, balance);
      SameOffSmaller(b0, b1, self.disk.blocks, Secs(t), Secs(t1));
      SuccessorBalanced(b0, b1, self.disk.blocks, t, t1, t', idx, k, self.c, balance);
    }
  }

  // take with take_wrapper
  method Take(self: BTree, s: Sector, needle: nat, ghost t: Tree, ghost h: nat, ghost m: nat)
    returns (found: bool, balance: bool, ghost t': Tree)
    requires 2 <= self.c && self.c % 2 == 0 && 1 <= m <= self.c / 2 && s == Root(t)
    requires Stored(self.disk.blocks, self.free.Avail(), t, h, m, self.c)
    modifies self.disk
    ensures found == Has(Flat(t), needle) && Flat(t') == Rem(Flat(t), needle)
    ensures Trimmed(self.disk.blocks, t, t', h, m, self.c, balance)
    ensures SameOff(old(self.disk.blocks), self.disk.blocks, Secs(t), {})
    ensures found ==> Took(old(self.disk.blocks), self.disk.blocks, t, t', Key(needle), self.c, balance)
    ensures !found ==> self.disk.blocks == old(self.disk.blocks) && t' == t && !balance
    decreases h
  {
    hide BNode.View, Flat, Secs, Roots, Rep, Shape, Lone, Sorted, Above, Rem, Has, Rank, FreeList.Avail, Unbalanced,
      ShapeBut, Balanced, Took, OnlyAt, Inner, Short, Rewritten;
    ghost var b0, av := self.disk.blocks, self.free.Avail();
    StoredHeight(b0, av, t, h, m, self.c);
    if s == 0 {
      NothingTaken(b0, av, t, h, m, self.c, needle);
      return false, false, t;
    }
    var buf, idx, hit, at, child := self.Probe(s, needle, t, h, m);
    StoredNode(b0, av, t, h, m, self.c);
    Holding(b0, av, t, h, m, self.c);
    StoredMin(b0, av, t, h, m, self.c);
    LeafLevel(b0, av, t, h, m, self.c);
    if hit {
      StoredHit(b0, av, t, h, m, self.c, idx);
      var leaf := buf.IsLeaf();
      assert buf.View().ch == Roots(t.ks);
      if leaf {
        assert h == 1;
        var out;
        LeafRem(b0, av, t, m, self.c, idx);
        out, balance, t' := TakeLeaf(self, s, buf, idx, t, m);
        TookLeaf(b0, self.disk.blocks, t, t', Key(needle), self.c, balance);
      } else {
        balance, t' := TakeIntNode(self, s, buf, idx, t, h, m);
      }
      return true, balance, t';
    }
    StoredKid(b0, av, t, h, m, self.c, needle, idx);
    ghost var k;
    found, balance, k := Take(self, child, needle, t.ks[idx], h - 1, self.c / 2);
    KidRemOrder(t, idx, k, needle);
    t' := Exchanged(t, idx, k);
    ExchangedSelf(t, idx);
    if !found {
      NothingTaken(b0, av, t, h, m, self.c, needle);
      SameOffRefl(b0, Secs(t), {});
      return;
    }
    assert h > 1 by {
      if h == 1 { NothingTaken(b0, av, t.ks[idx], 0, self.c / 2, self.c, needle); }
    }
    TrimmedKid(b0, self.disk.blocks, av, t, idx, k, h, m, self.c, balance);
    ghost var t1, b1 := t', self.disk.blocks;
    OnlySame(b1);
    if balance {
      if idx < buf.length {
        MakeUnbalanced(b1, av, t1, idx, true, h - 1, self.c);
        balance, t' := Rebalance(self, s, buf, idx, true, t1, h - 1, av);
        TookBalanced(b0, b1, b1, self.disk.blocks, t, k, t1, t', Key(needle), idx, true, self.c, balance);
      } else {
        MakeUnbalanced(b1, av, t1, idx - 1, false, h - 1, self.c);
        balance, t' := Rebalance(self, s, buf, idx - 1, false, t1, h - 1, av);
        TookBalanced(b0, b1, b1, self.disk.blocks, t, k, t1, t', Key(needle), idx - 1, false, self.c, balance);
      }
      RebalancedTrims(self.disk.blocks, t, t1, t', h, m, self.c, balance);
      SameOffSmaller(b0, b1, self.disk.blocks, Secs(t), Secs(t1));
    } else {
      TookQuiet(b0, b1, b1, t, k, t', Key(needle), self.c);
    }
  }

  // spfs_btree_remove; sectors given up by merges and the root are never handed out again.
  method SpfsBtreeRemove(self: BTree, ino: nat) returns (found: bool)
    requires self.Valid()
    modifies self`start, self`tree, self`height, self.disk
    ensures self.Valid()
    ensures found == (ino in old(self.Index()))
    ensures self.Index() == old(self.Index()) - {ino}
    ensures Flat(self.tree) == Rem(old(Flat(self.tree)), ino)
    ensures Secs(self.tree) <= old(Secs(self.tree))
    ensures SameOff(old(self.disk.blocks), self.disk.blocks, old(Secs(self.tree)), {})
    ensures found ==>
      OnlyAt(old(self.disk.blocks), self.disk.blocks, Rewritten(old(self.tree), Key(ino), self.c))
    ensures found && Held(Donor(old(self.tree), Key(ino))) > self.c / 2 ==>
      var t := old(self.tree);
      OnlyAt(old(self.disk.blocks), self.disk.blocks, {Root(Donor(t, Key(ino)))} + Holder(t, Key(ino)))
    ensures !found ==> self.disk.blocks == old(self.disk.blocks) && self.tree == old(self.tree)
  {
    hide FreeList.Avail, FreeList.Valid, Flat, Secs, Shape, Rep, Sorted, Above, Homes, Inodes, Rem, Has, Lone, Roots,
      Trimmed, BNode.View, OnlyAt, Rewritten, Donor, Holder;
    ghost var b0, av, t, h := self.disk.blocks, self.free.Avail(), self.tree, self.height;
    InodesKey(b0, Flat(t), Secs(t), av, ino);
    var balance;
    ghost var t';
    found, balance, t' := Take(self, self.start, ino, t, h, 1);
    if Held(Donor(t, Key(ino))) > self.c / 2 { LeafAlone(t, Key(ino), self.c); }
    TrimmedRoot(b0, self.disk.blocks, av, t, t', h, self.c, balance, ino);
    HomesRem(b0, self.disk.blocks, Flat(t), Secs(t), Secs(t'), av, ino);
    InodesRem(b0, self.disk.blocks, Flat(t), Secs(t), av, ino);
    if balance {
      var oldRoot := new BNode.Parse(self.c, self.disk.blocks[self.start].node);
      if oldRoot.length == 0 {
        self.start := oldRoot.GetChild(0);
        EmptyRoot(self.disk.blocks, av, t', h, self.c);
        HomesLess(self.disk.blocks, Flat(t'), Secs(t'), Secs(t'.ks[0]), av);
        self.tree, self.height := t'.ks[0], h - 1;
        return;
      }
    }
    self.tree := t';
  }

  lemma ThreeWritten(b: map<Sector, Block>, x: Sector, m: Node, y: Sector, n: Node, z: Sector, o: Node)
    requires x in b && y in b && z in b
    ensures OnlyAt(b, WriteThree(b, x, m, y, n, z, o), {z, x, y})
  {
  }

  lemma UnbalancedSecs(b: map<Sector, Block>, av: set<Sector>, t: Tree, p: nat, left: bool, h: nat, c: nat)
    requires Unbalanced(b, av, t, p, left, h, c)
    ensures t.ks[p].Br? && t.ks[p + 1].Br? && t.sec in b && t.ks[p].sec in b && t.ks[p + 1].sec in b
  {
    hide Shape;
    PairShape(t, p, left, h, c);
    RepSec(b, t);
    PairStored(b, t, p);
  }
}
