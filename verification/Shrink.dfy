// What rotations, merges and removals do to a tree (the diagrams of btree_remove.c).

module Shrinks {
  import opened Entries
  import opened Disks
  import opened Trees
  import opened Layouts

  ghost predicate Branching(t: Tree) {
    t.Br? && |t.ks| == |t.es| + 1
  }

  // Two neighbouring children and their separator exchanged; two neighbours fused into one.
  ghost function Paired(t: Tree, p: nat, l: Tree, x: Entry, r: Tree): (t': Tree)
    requires Branching(t) && p < |t.es|
    ensures Branching(t') && t'.sec == t.sec && |t'.es| == |t.es|
  {
    Br(t.sec, t.es[p := x], t.ks[p := l][p + 1 := r])
  }

  ghost function Fused(t: Tree, p: nat, l: Tree): (t': Tree)
    requires Branching(t) && p < |t.es|
    ensures Branching(t') && t'.sec == t.sec && |t'.es| == |t.es| - 1
  {
    Br(t.sec, Without(t.es, p), Without(t.ks, p + 1)[p := l])
  }

  // The part of the contents of a node outside the pair, and its sectors.
  ghost function OuterLeft(t: Tree, p: nat): seq<Entry>
    requires Branching(t) && p < |t.es|
  {
    Lft(Without(t.es, p), Without(t.ks, p + 1), p)
  }

  ghost function OuterRight(t: Tree, p: nat): seq<Entry>
    requires Branching(t) && p < |t.es|
  {
    Rgt(Without(t.es, p), Without(t.ks, p + 1), p)
  }

  ghost function OuterSecs(t: Tree, p: nat): multiset<Sector>
    requires Branching(t) && p < |t.es|
  {
    SecsAll(t.ks[..p]) + SecsAll(t.ks[p + 2..])
  }

  lemma PairedParts(t: Tree, p: nat, l: Tree, x: Entry, r: Tree)
    requires Branching(t) && p < |t.es|
    ensures Flat(Paired(t, p, l, x, r)) == OuterLeft(t, p) + (Flat(l) + [x] + Flat(r)) + OuterRight(t, p)
    ensures Secs(Paired(t, p, l, x, r)) == multiset{t.sec} + OuterSecs(t, p) + (Secs(l) + Secs(r))
  {
    hide Weave, SecsAll, Lft, Rgt;
    var es, ks := Without(t.es, p), Without(t.ks, p + 1);
    InsertKid(es, ks, p, l, x, r);
    PairedSeqs(t.es, t.ks, p, l, x, r);
    ReorderSecs(multiset{t.sec}, SecsAll(t.ks[..p]), Secs(l) + Secs(r), SecsAll(t.ks[p + 2..]));
  }

  lemma ReorderSecs(o: multiset<Sector>, a: multiset<Sector>, m: multiset<Sector>, b: multiset<Sector>)
    ensures o + (a + m + b) == o + (a + b) + m
  {
  }

  lemma PairedSeqs(es: seq<Entry>, ks: seq<Tree>, p: nat, l: Tree, x: Entry, r: Tree)
    requires |ks| == |es| + 1 && p < |es|
    ensures var e, k := Without(es, p), Without(ks, p + 1);
      && e[..p] + [x] + e[p..] == es[p := x]
      && k[..p] + [l] + [r] + k[p + 1..] == ks[p := l][p + 1 := r]
      && k[..p] == ks[..p] && k[p + 1..] == ks[p + 2..]
  {
  }

  lemma PairedSelf(t: Tree, p: nat)
    requires Branching(t) && p < |t.es|
    ensures Paired(t, p, t.ks[p], t.es[p], t.ks[p + 1]) == t
  {
  }

  lemma FusedParts(t: Tree, p: nat, l: Tree)
    requires Branching(t) && p < |t.es|
    ensures Flat(Fused(t, p, l)) == OuterLeft(t, p) + Flat(l) + OuterRight(t, p)
    ensures Secs(Fused(t, p, l)) == multiset{t.sec} + OuterSecs(t, p) + Secs(l)
  {
    var es, ks := Without(t.es, p), Without(t.ks, p + 1);
    ReplaceKid(es, ks, p, l);
    assert ks[..p] == t.ks[..p] && ks[p + 1..] == t.ks[p + 2..];
  }

  // The first entry of the right node goes up, the separator goes down to the left node with
  // the first child of the right node.
  ghost function LeftGains(l: Tree, x: Entry, r: Tree): (t: Tree)
    requires Branching(l) && Branching(r) && |r.es| > 0
    ensures Branching(t) && |t.es| == |l.es| + 1 && t.sec == l.sec
  {
    Br(l.sec, l.es + [x], l.ks + [r.ks[0]])
  }

  ghost function RightLoses(r: Tree): (t: Tree)
    requires Branching(r) && |r.es| > 0
    ensures Branching(t) && |t.es| == |r.es| - 1 && t.sec == r.sec
  {
    Br(r.sec, r.es[1..], r.ks[1..])
  }

  lemma RotateLeft(l: Tree, x: Entry, r: Tree)
    requires Branching(l) && Branching(r) && |r.es| > 0
    ensures Flat(LeftGains(l, x, r)) + [r.es[0]] + Flat(RightLoses(r)) == Flat(l) + [x] + Flat(r)
    ensures Secs(LeftGains(l, x, r)) + Secs(RightLoses(r)) == Secs(l) + Secs(r)
  {
    hide Secs, SecsAll;
    Join(l.es, l.ks, x, [], [r.ks[0]]);
    assert l.es + [x] + [] == l.es + [x];
    OneWeave(r.ks[0]);
    RotateLeftSecs(l, x, r);
    Regroup5(Flat(l), [x], Flat(r.ks[0]), [r.es[0]], Flat(RightLoses(r)));
  }

  lemma BranchSecs(t: Tree)
    requires t.Br?
    ensures Secs(t) == multiset{t.sec} + SecsAll(t.ks)
  {
  }

  lemma RotateLeftSecs(l: Tree, x: Entry, r: Tree)
    requires Branching(l) && Branching(r) && |r.es| > 0
    ensures Secs(LeftGains(l, x, r)) + Secs(RightLoses(r)) == Secs(l) + Secs(r)
  {
    hide Secs, SecsAll;
    MoveSecs(l.ks, r.ks[0], r.ks[1..]);
    assert r.ks == [r.ks[0]] + r.ks[1..];
    BranchSecs(l);
    BranchSecs(r);
    BranchSecs(LeftGains(l, x, r));
    BranchSecs(RightLoses(r));
    TwoSums(l.sec, r.sec, SecsAll(l.ks + [r.ks[0]]), SecsAll(r.ks[1..]), SecsAll(l.ks), SecsAll(r.ks));
  }

  lemma TwoSums(x: Sector, y: Sector, a: multiset<Sector>, b: multiset<Sector>, c: multiset<Sector>,
                d: multiset<Sector>)
    requires a + b == c + d
    ensures (multiset{x} + a) + (multiset{y} + b) == (multiset{x} + c) + (multiset{y} + d)
  {
    assert forall v :: a[v] + b[v] == (a + b)[v] && c[v] + d[v] == (c + d)[v];
  }

  lemma Regroup5<T>(a: seq<T>, b: seq<T>, c: seq<T>, d: seq<T>, e: seq<T>)
    ensures (a + b + c) + d + e == a + b + (c + d + e)
  {
  }

  // The mirror image: the last entry of the left node goes up.
  ghost function LeftLoses(l: Tree): (t: Tree)
    requires Branching(l) && |l.es| > 0
    ensures Branching(t) && |t.es| == |l.es| - 1 && t.sec == l.sec
  {
    Br(l.sec, l.es[..|l.es| - 1], l.ks[..|l.es|])
  }

  ghost function RightGains(l: Tree, x: Entry, r: Tree): (t: Tree)
    requires Branching(l) && Branching(r)
    ensures Branching(t) && |t.es| == |r.es| + 1 && t.sec == r.sec
  {
    Br(r.sec, [x] + r.es, [l.ks[|l.es|]] + r.ks)
  }

  lemma BranchFlat(t: Tree)
    requires Branching(t)
    ensures Flat(t) == Weave(t.es, t.ks)
  {
  }

  lemma OneWeave(k: Tree)
    ensures Weave([], [k]) == Flat(k)
  {
  }

  lemma RotateRight(l: Tree, x: Entry, r: Tree)
    requires Branching(l) && Branching(r) && |l.es| > 0
    ensures Flat(LeftLoses(l)) + [l.es[|l.es| - 1]] + Flat(RightGains(l, x, r)) == Flat(l) + [x] + Flat(r)
    ensures Secs(LeftLoses(l)) + Secs(RightGains(l, x, r)) == Secs(l) + Secs(r)
  {
    hide Secs, SecsAll, Weave, Flat;
    var n := |l.es|;
    var last, y := l.ks[n], l.es[n - 1];
    BranchFlat(l);
    BranchFlat(r);
    BranchFlat(LeftLoses(l));
    BranchFlat(RightGains(l, x, r));
    OneWeave(last);
    Join(l.es[..n - 1], l.ks[..n], y, [], [last]);
    assert l.es[..n - 1] + [y] + [] == l.es && l.ks[..n] + [last] == l.ks;
    Join([], [last], x, r.es, r.ks);
    assert [] + [x] + r.es == [x] + r.es;
    RotateRightSecs(l, x, r);
    Regroup5(Flat(LeftLoses(l)), [y], Flat(last), [x], Flat(r));
  }

  lemma RotateRightSecs(l: Tree, x: Entry, r: Tree)
    requires Branching(l) && Branching(r) && |l.es| > 0
    ensures Secs(LeftLoses(l)) + Secs(RightGains(l, x, r)) == Secs(l) + Secs(r)
  {
    hide Secs, SecsAll;
    var n := |l.es|;
    MoveSecs(l.ks[..n], l.ks[n], r.ks);
    assert l.ks == l.ks[..n] + [l.ks[n]];
    BranchSecs(l);
    BranchSecs(r);
    BranchSecs(LeftLoses(l));
    BranchSecs(RightGains(l, x, r));
    TwoSums(l.sec, r.sec, SecsAll(l.ks[..n]), SecsAll([l.ks[n]] + r.ks), SecsAll(l.ks), SecsAll(r.ks));
  }

  lemma MoveSecs(a: seq<Tree>, k: Tree, b: seq<Tree>)
    ensures SecsAll(a + [k]) + SecsAll(b) == SecsAll(a) + SecsAll([k] + b)
  {
    hide Secs;
    SecsAppend(a, [k]);
    SecsAppend([k], b);
  }

  ghost function Merged(l: Tree, x: Entry, r: Tree): (t: Tree)
    requires Branching(l) && Branching(r)
    ensures Branching(t) && |t.es| == |l.es| + 1 + |r.es| && t.sec == l.sec
  {
    Br(l.sec, l.es + [x] + r.es, l.ks + r.ks)
  }

  lemma Merge(l: Tree, x: Entry, r: Tree)
    requires Branching(l) && Branching(r)
    ensures Flat(Merged(l, x, r)) == Flat(l) + [x] + Flat(r)
    ensures Secs(Merged(l, x, r)) + multiset{r.sec} == Secs(l) + Secs(r)
  {
    Join(l.es, l.ks, x, r.es, r.ks);
    SecsAppend(l.ks, r.ks);
  }

  // When a deficient node meets a sibling at the minimum, everything fits one node exactly when
  // the capacity is even.
  lemma MergeFits(c: nat)
    requires c > 0
    ensures ((c + 1) / 2 - 1) + 1 + (c + 1) / 2 <= c <==> c % 2 == 0
  {
  }

  // Distinct sectors: rewriting a node and two children disturbs nothing below or beside them.
  lemma PairFrame(b: map<Sector, Block>, b': map<Sector, Block>, t: Tree, p: nat, av: set<Sector>)
    requires Branching(t) && p < |t.es| && Rep(b, t) && Lone(Secs(t), av)
    requires t.ks[p].Br? && t.ks[p + 1].Br?
    requires SameOff(b, b', multiset{t.sec, t.ks[p].sec, t.ks[p + 1].sec}, {})
    ensures t.sec != t.ks[p].sec && t.sec != t.ks[p + 1].sec && t.ks[p].sec != t.ks[p + 1].sec
    ensures RepAll(b', t.ks[p].ks) && RepAll(b', t.ks[p + 1].ks)
    ensures RepAll(b', t.ks[..p]) && RepAll(b', t.ks[p + 2..])
    ensures SameOff(b, b', Secs(t), {})
  {
    hide Secs, SecsAll, Lone, Rep, Roots;
    var l, r, o := t.ks[p], t.ks[p + 1], OuterSecs(t, p);
    PairedSelf(t, p);
    PairedParts(t, p, l, t.es[p], r);
    BranchSecs(l);
    BranchSecs(r);
    PairLone(t.sec, l.sec, r.sec, o, SecsAll(l.ks), SecsAll(r.ks), av);
    RepParts(b, t);
    RepParts(b, l);
    RepParts(b, r);
    KidsAside(b, b', multiset{t.sec, l.sec, r.sec}, l.ks);
    KidsAside(b, b', multiset{t.sec, l.sec, r.sec}, r.ks);
    RepSlices(b, t.ks, p);
    KidsAside(b, b', multiset{t.sec, l.sec, r.sec}, t.ks[..p]);
    KidsAside(b, b', multiset{t.sec, l.sec, r.sec}, t.ks[p + 2..]);
  }

  lemma RepSlices(b: map<Sector, Block>, ks: seq<Tree>, p: nat)
    requires RepAll(b, ks) && p + 2 <= |ks|
    ensures RepAll(b, ks[..p]) && RepAll(b, ks[p + 2..])
  {
  }

  lemma KidsAside(b: map<Sector, Block>, b': map<Sector, Block>, m: multiset<Sector>, ks: seq<Tree>)
    requires SameOff(b, b', m, {}) && RepAll(b, ks) && forall x :: x in SecsAll(ks) ==> x !in m
    ensures RepAll(b', ks)
  {
    hide SecsAll, Rep;
    OnOff(b, b', m, SecsAll(ks));
    RepAllFrame(b, b', ks);
  }

  lemma RepParts(b: map<Sector, Block>, t: Tree)
    requires Rep(b, t) && t.Br?
    ensures RepAll(b, t.ks)
  {
  }

  lemma OnOff(b: map<Sector, Block>, b': map<Sector, Block>, m: multiset<Sector>, n: multiset<Sector>)
    requires SameOff(b, b', m, {}) && forall x :: x in n ==> x !in m
    ensures SameOn(b, b', n)
  {
  }

  lemma PairLone(x: Sector, y: Sector, z: Sector, o: multiset<Sector>, l: multiset<Sector>, r: multiset<Sector>,
                 av: set<Sector>)
    requires Lone(multiset{x} + o + ((multiset{y} + l) + (multiset{z} + r)), av)
    ensures x != y && x != z && y != z
    ensures forall v :: v in o || v in l || v in r ==> v !in multiset{x, y, z}
    ensures forall v :: v in multiset{x, y, z} ==> v in multiset{x} + o + ((multiset{y} + l) + (multiset{z} + r))
  {
    var m := multiset{x} + o + ((multiset{y} + l) + (multiset{z} + r));
    assert forall v :: m[v] == multiset{x}[v] + o[v] + multiset{y}[v] + l[v] + multiset{z}[v] + r[v];
    assert x in m && y in m && z in m;
    forall v | v in o || v in l || v in r ensures v !in multiset{x, y, z} {
      assert v in m;
    }
  }

  lemma PairedRep(b: map<Sector, Block>, t: Tree, p: nat, l: Tree, x: Entry, r: Tree)
    requires Branching(t) && p < |t.es| && Rep(b, l) && Rep(b, r)
    requires Root(l) == Root(t.ks[p]) && Root(r) == Root(t.ks[p + 1])
    requires RepAll(b, t.ks[..p]) && RepAll(b, t.ks[p + 2..])
    requires t.sec != 0 && t.sec in b && b[t.sec] == NodeB(Node(t.es[p := x], Roots(t.ks)))
    ensures Rep(b, Paired(t, p, l, x, r))
  {
    var ks := Paired(t, p, l, x, r).ks;
    assert Roots(ks) == Roots(t.ks);
    forall j | 0 <= j < |ks| ensures Rep(b, ks[j]) {
      if j < p { assert ks[j] == t.ks[..p][j]; }
      if j > p + 1 { assert ks[j] == t.ks[p + 2..][j - p - 2]; }
    }
  }

  lemma FusedRep(b: map<Sector, Block>, t: Tree, p: nat, l: Tree)
    requires Branching(t) && p < |t.es| && Rep(b, l) && Root(l) == Root(t.ks[p])
    requires RepAll(b, t.ks[..p]) && RepAll(b, t.ks[p + 2..])
    requires t.sec != 0 && t.sec in b && b[t.sec] == NodeB(Node(Without(t.es, p), Without(Roots(t.ks), p + 1)))
    ensures Rep(b, Fused(t, p, l))
  {
    var ks := Fused(t, p, l).ks;
    assert Roots(ks) == Without(Roots(t.ks), p + 1);
    forall j | 0 <= j < |ks| ensures Rep(b, ks[j]) {
      if j < p { assert ks[j] == t.ks[..p][j]; }
      if j > p { assert ks[j] == t.ks[p + 2..][j - p - 1]; }
    }
  }

  // All children of height h are in shape except that child i may be one entry short.
  ghost predicate ShapeBut(ks: seq<Tree>, i: nat, h: nat, c: nat) {
    && i < |ks| && Shape(ks[i], h, c / 2 - 1, c)
    && forall j :: 0 <= j < |ks| && j != i ==> Shape(ks[j], h, c / 2, c)
  }

  // A node after rebalancing below it: same contents, no new sectors, children in shape.
  ghost predicate Rebalanced(b: map<Sector, Block>, t: Tree, t': Tree, h: nat, c: nat, merged: bool) {
    && Branching(t') && Rep(b, t') && Root(t') == Root(t) && Flat(t') == Flat(t) && Secs(t') <= Secs(t)
    && ShapeAll(t'.ks, h, c) && t.Br? && |t'.es| == |t.es| - if merged then 1 else 0
  }

  // The separator between two neighbours sits strictly between their entries.
  lemma PairOrder(t: Tree, p: nat)
    requires Branching(t) && p < |t.es| && Sorted(Flat(t))
    requires Branching(t.ks[p]) && Branching(t.ks[p + 1])
    ensures var l, x, r := t.ks[p], t.es[p], t.ks[p + 1];
      && Sorted(l.es) && Sorted(r.es) && Below(l.es, x.id) && Above(r.es, x.id)
  {
    var l, x, r := t.ks[p], t.es[p], t.ks[p + 1];
    var a, b := OuterLeft(t, p), OuterRight(t, p);
    PairedSelf(t, p);
    PairedParts(t, p, l, x, r);
    Regroup(a, Flat(l), [x], Flat(r), b);
    SortedParts(a + Flat(l), x, Flat(r) + b);
    SortedAppend(a, Flat(l));
    SortedAppend(Flat(r), b);
    BelowAppend(a, Flat(l), x.id);
    AboveAppend(Flat(r), b, x.id);
    EntriesSorted(l.es, l.ks);
    EntriesSorted(r.es, r.ks);
    EntriesBelow(l.es, l.ks, x.id);
    EntriesAbove(r.es, r.ks, x.id);
  }

  lemma BelowAppend(a: seq<Entry>, b: seq<Entry>, k: nat)
    requires Below(a + b, k)
    ensures Below(a, k) && Below(b, k)
  {
    assert forall i :: 0 <= i < |b| ==> b[i] == (a + b)[|a| + i];
    assert forall i :: 0 <= i < |a| ==> a[i] == (a + b)[i];
  }

  lemma AboveAppend(a: seq<Entry>, b: seq<Entry>, k: nat)
    requires Above(a + b, k)
    ensures Above(a, k) && Above(b, k)
  {
    assert forall i :: 0 <= i < |b| ==> b[i] == (a + b)[|a| + i];
    assert forall i :: 0 <= i < |a| ==> a[i] == (a + b)[i];
  }

  lemma AboveRank(s: seq<Entry>, k: nat)
    requires Above(s, k) && Sorted(s)
    ensures Rank(s, k) == 0 && !Has(s, k)
  {
  }

  // What rebalance is given: a node whose children are in shape, except that the child on the
  // side of the pivot named by left may have lost an entry.
  ghost predicate Unbalanced(b: map<Sector, Block>, av: set<Sector>, t: Tree, p: nat, left: bool, h: nat, c: nat) {
    && Branching(t) && p < |t.es| && Rep(b, t) && Sorted(Flat(t)) && Lone(Secs(t), av)
    && h > 0 && ShapeBut(t.ks, if left then p else p + 1, h, c)
    && t.ks[if left then p else p + 1].Br? && |t.ks[if left then p else p + 1].es| < c
  }

  lemma PairShape(t: Tree, p: nat, left: bool, h: nat, c: nat)
    requires Branching(t) && p < |t.es| && h > 0 && ShapeBut(t.ks, if left then p else p + 1, h, c)
    ensures var l, r := t.ks[p], t.ks[p + 1];
      && Branching(l) && Branching(r) && ShapeAll(l.ks, h - 1, c) && ShapeAll(r.ks, h - 1, c)
      && |l.es| <= c && |r.es| <= c
      && |l.es| >= (if left then c / 2 - 1 else c / 2) && |r.es| >= (if left then c / 2 else c / 2 - 1)
  {
  }

  lemma PairedShape(t: Tree, p: nat, left: bool, h: nat, c: nat, l: Tree, x: Entry, r: Tree)
    requires Branching(t) && p < |t.es| && h > 0 && ShapeBut(t.ks, if left then p else p + 1, h, c)
    requires Shape(l, h, c / 2, c) && Shape(r, h, c / 2, c)
    ensures ShapeAll(Paired(t, p, l, x, r).ks, h, c)
  {
  }

  lemma FusedShape(t: Tree, p: nat, left: bool, h: nat, c: nat, l: Tree)
    requires Branching(t) && p < |t.es| && h > 0 && ShapeBut(t.ks, if left then p else p + 1, h, c)
    requires Shape(l, h, c / 2, c)
    ensures ShapeAll(Fused(t, p, l).ks, h, c)
  {
  }

  // The disk after a rotation: the two siblings and the separator hold the rotated pair.
  lemma Rotated(b: map<Sector, Block>, b': map<Sector, Block>, av: set<Sector>, t: Tree, p: nat, left: bool, h: nat,
                c: nat, l: Tree, x: Entry, r: Tree)
    requires Unbalanced(b, av, t, p, left, h, c) && t.ks[p].Br? && t.ks[p + 1].Br?
    requires Branching(l) && Branching(r) && l.sec == t.ks[p].sec && r.sec == t.ks[p + 1].sec
    requires Flat(l) + [x] + Flat(r) == Flat(t.ks[p]) + [t.es[p]] + Flat(t.ks[p + 1])
    requires Secs(l) + Secs(r) == Secs(t.ks[p]) + Secs(t.ks[p + 1])
    requires Shape(l, h, c / 2, c) && Shape(r, h, c / 2, c)
    requires forall k :: k in l.ks || k in r.ks ==> k in t.ks[p].ks || k in t.ks[p + 1].ks
    requires b' == WriteThree(b, l.sec, Node(l.es, Roots(l.ks)), r.sec, Node(r.es, Roots(r.ks)),
                              t.sec, Node(t.es[p := x], Roots(t.ks)))
    ensures Rebalanced(b', t, Paired(t, p, l, x, r), h, c, false)
    ensures SameOff(b, b', Secs(t), {})
  {
    hide Flat, Secs, Sorted, Roots, Shape, Lone, ShapeBut;
    RepSec(b, t);
    assert RepAll(b, t.ks);
    RepSec(b, t.ks[p]);
    RepSec(b, t.ks[p + 1]);
    PairFrame(b, b', t, p, av);
    KidsRep(b', t.ks[p].ks, t.ks[p + 1].ks, l.ks);
    KidsRep(b', t.ks[p].ks, t.ks[p + 1].ks, r.ks);
    PairedRep(b', t, p, l, x, r);
    PairedShape(t, p, left, h, c, l, x, r);
    PairedSelf(t, p);
    PairedParts(t, p, t.ks[p], t.es[p], t.ks[p + 1]);
    PairedParts(t, p, l, x, r);
  }

  lemma KidsRep(b: map<Sector, Block>, k1: seq<Tree>, k2: seq<Tree>, ks: seq<Tree>)
    requires RepAll(b, k1) && RepAll(b, k2)
    requires forall k :: k in ks ==> k in k1 || k in k2
    ensures RepAll(b, ks)
  {
    forall i | 0 <= i < |ks| ensures Rep(b, ks[i]) {
      assert ks[i] in ks;
    }
  }

  lemma RepSec(b: map<Sector, Block>, t: Tree)
    requires Rep(b, t) && t.Br?
    ensures t.sec != 0 && t.sec in b && b[t.sec] == NodeB(Node(t.es, Roots(t.ks)))
  {
  }

  // The node blocks a rotation writes are those of the rotated subtrees.
  lemma RotateLeftNodes(l: Tree, x: Entry, r: Tree)
    requires Branching(l) && Branching(r) && |r.es| > 0
    ensures var g := LeftGains(l, x, r); Node(g.es, Roots(g.ks)) == Node(l.es + [x], Roots(l.ks) + [Roots(r.ks)[0]])
    ensures Node(RightLoses(r).es, Roots(RightLoses(r).ks)) == Node(Without(r.es, 0), Without(Roots(r.ks), 0))
  {
    RootsAppend(l.ks, [r.ks[0]]);
    assert Roots([r.ks[0]]) == [Roots(r.ks)[0]];
    assert Roots(r.ks[1..]) == Without(Roots(r.ks), 0);
    assert r.es[1..] == Without(r.es, 0);
  }

  lemma RotateRightNodes(l: Tree, x: Entry, r: Tree)
    requires Branching(l) && Branching(r) && |l.es| > 0
    ensures var n := |l.es|;
      && Node(LeftLoses(l).es, Roots(LeftLoses(l).ks)) == Node(Without(l.es, n - 1), Without(Roots(l.ks), n))
      && var g := RightGains(l, x, r);
         Node(g.es, Roots(g.ks)) == Node(Put(r.es, 0, x), Put(Roots(r.ks), 0, Roots(l.ks)[n]))
  {
    var n := |l.es|;
    RootsAppend([l.ks[n]], r.ks);
    assert Roots([l.ks[n]]) == [Roots(l.ks)[n]];
    assert Roots(l.ks[..n]) == Without(Roots(l.ks), n);
    assert l.es[..n - 1] == Without(l.es, n - 1);
    assert Put(r.es, 0, x) == [x] + r.es;
    assert Put(Roots(r.ks), 0, Roots(l.ks)[n]) == [Roots(l.ks)[n]] + Roots(r.ks);
  }

  lemma RotatedFromRight(b: map<Sector, Block>, b': map<Sector, Block>, av: set<Sector>, t: Tree, p: nat, h: nat,
                         c: nat)
    requires Unbalanced(b, av, t, p, true, h, c) && 2 <= c && c % 2 == 0
    requires t.ks[p].Br? && t.ks[p + 1].Br? && |t.ks[p + 1].es| > (c + 1) / 2
    requires var l, x, r := t.ks[p], t.es[p], t.ks[p + 1];
      b' == WriteThree(b, l.sec, Node(LeftGains(l, x, r).es, Roots(LeftGains(l, x, r).ks)),
                       r.sec, Node(RightLoses(r).es, Roots(RightLoses(r).ks)),
                       t.sec, Node(t.es[p := r.es[0]], Roots(t.ks)))
    ensures var l, x, r := t.ks[p], t.es[p], t.ks[p + 1];
      && Rebalanced(b', t, Paired(t, p, LeftGains(l, x, r), r.es[0], RightLoses(r)), h, c, false)
      && SameOff(b, b', Secs(t), {})
  {
    hide Flat, Secs, Sorted, Roots, Lone, Rep, Rebalanced;
    var l, x, r := t.ks[p], t.es[p], t.ks[p + 1];
    PairShape(t, p, true, h, c);
    RotateLeft(l, x, r);
    Rotated(b, b', av, t, p, true, h, c, LeftGains(l, x, r), r.es[0], RightLoses(r));
  }

  lemma RotatedFromLeft(b: map<Sector, Block>, b': map<Sector, Block>, av: set<Sector>, t: Tree, p: nat, h: nat, c: nat)
    requires Unbalanced(b, av, t, p, false, h, c) && 2 <= c && c % 2 == 0
    requires t.ks[p].Br? && t.ks[p + 1].Br? && |t.ks[p].es| > (c + 1) / 2
    requires var l, x, r := t.ks[p], t.es[p], t.ks[p + 1];
      b' == WriteThree(b, l.sec, Node(LeftLoses(l).es, Roots(LeftLoses(l).ks)),
                       r.sec, Node(RightGains(l, x, r).es, Roots(RightGains(l, x, r).ks)),
                       t.sec, Node(t.es[p := l.es[|l.es| - 1]], Roots(t.ks)))
    ensures var l, x, r := t.ks[p], t.es[p], t.ks[p + 1];
      && Rebalanced(b', t, Paired(t, p, LeftLoses(l), l.es[|l.es| - 1], RightGains(l, x, r)), h, c, false)
      && SameOff(b, b', Secs(t), {})
  {
    hide Flat, Secs, Sorted, Roots, Lone, Rep, Rebalanced;
    var l, x, r := t.ks[p], t.es[p], t.ks[p + 1];
    PairShape(t, p, false, h, c);
    RotateRight(l, x, r);
    Rotated(b, b', av, t, p, false, h, c, LeftLoses(l), l.es[|l.es| - 1], RightGains(l, x, r));
  }

  // The two writes of a merge stay in the node and its left child.
  lemma MergedSame(b: map<Sector, Block>, b': map<Sector, Block>, t: Tree, p: nat, m: Tree)
    requires Branching(t) && p < |t.es| && t.ks[p].Br? && t.ks[p + 1].Br? && m.Br? && m.sec == t.ks[p].sec
    requires t.sec in b && m.sec in b
    requires b' == b[m.sec := NodeB(Node(m.es, Roots(m.ks)))]
                    [t.sec := NodeB(Node(Without(t.es, p), Without(Roots(t.ks), p + 1)))]
    ensures SameOff(b, b', multiset{t.sec, t.ks[p].sec, t.ks[p + 1].sec}, {})
    ensures b'[t.sec] == NodeB(Node(Without(t.es, p), Without(Roots(t.ks), p + 1)))
    ensures m.sec != t.sec ==> b'[m.sec] == NodeB(Node(m.es, Roots(m.ks)))
  {
    hide Roots, Without;
  }

  // The merged node in its sector, and the parent around it.
  lemma MergedRep(b: map<Sector, Block>, t: Tree, p: nat, m: Tree)
    requires Branching(t) && p < |t.es| && Branching(m) && m.sec == Root(t.ks[p]) && m.sec != 0 && m.sec in b
    requires b[m.sec] == NodeB(Node(m.es, Roots(m.ks))) && RepAll(b, m.ks)
    requires RepAll(b, t.ks[..p]) && RepAll(b, t.ks[p + 2..])
    requires t.sec != 0 && t.sec in b && b[t.sec] == NodeB(Node(Without(t.es, p), Without(Roots(t.ks), p + 1)))
    ensures Rep(b, m) && Rep(b, Fused(t, p, m))
  {
    assert Rep(b, m);
    hide Rep;
    FusedRep(b, t, p, m);
  }

  lemma MergedSiblings(b: map<Sector, Block>, b': map<Sector, Block>, av: set<Sector>, t: Tree, p: nat, left: bool,
                       h: nat, c: nat)
    requires Unbalanced(b, av, t, p, left, h, c) && t.ks[p].Br? && t.ks[p + 1].Br?
    requires |t.ks[p].es| + 1 + |t.ks[p + 1].es| <= c
    requires var l, x, r := t.ks[p], t.es[p], t.ks[p + 1];
      b' == b[l.sec := NodeB(Node(l.es + [x] + r.es, Roots(l.ks + r.ks)))]
             [t.sec := NodeB(Node(Without(t.es, p), Without(Roots(t.ks), p + 1)))]
    ensures Rebalanced(b', t, Fused(t, p, Merged(t.ks[p], t.es[p], t.ks[p + 1])), h, c, true)
    ensures SameOff(b, b', Secs(t), {})
  {
    hide Flat, Secs, Sorted, Roots, Lone, Rep;
    var l, x, r := t.ks[p], t.es[p], t.ks[p + 1];
    var m := Merged(l, x, r);
    PairShape(t, p, left, h, c);
    RepParts(b, t);
    RepSec(b, t);
    RepSec(b, l);
    MergedSame(b, b', t, p, m);
    PairFrame(b, b', t, p, av);
    KidsRep(b', l.ks, r.ks, m.ks);
    MergedRep(b', t, p, m);
    FusedShape(t, p, left, h, c, m);
    PairedSelf(t, p);
    PairedParts(t, p, l, x, r);
    FusedParts(t, p, m);
    Merge(l, x, r);
  }

  lemma PairStored(b: map<Sector, Block>, t: Tree, p: nat)
    requires Branching(t) && p < |t.es| && Rep(b, t) && t.ks[p].Br? && t.ks[p + 1].Br?
    ensures Roots(t.ks)[p] == t.ks[p].sec && Roots(t.ks)[p + 1] == t.ks[p + 1].sec
    ensures var l, r := t.ks[p], t.ks[p + 1];
      && l.sec in b && b[l.sec] == NodeB(Node(l.es, Roots(l.ks)))
      && r.sec in b && b[r.sec] == NodeB(Node(r.es, Roots(r.ks)))
  {
    RepSec(b, t.ks[p]);
    RepSec(b, t.ks[p + 1]);
  }

  // The child was not deficient after all.
  lemma NothingToDo(b: map<Sector, Block>, av: set<Sector>, t: Tree, p: nat, left: bool, h: nat, c: nat)
    requires Unbalanced(b, av, t, p, left, h, c) && t.Br?
    requires t.ks[p].Br? && t.ks[p + 1].Br? && |t.ks[p].es| >= c / 2 && |t.ks[p + 1].es| >= c / 2
    ensures Rebalanced(b, t, t, h, c, false)
  {
  }

  lemma UnbalancedPair(b: map<Sector, Block>, av: set<Sector>, t: Tree, p: nat, left: bool, h: nat, c: nat)
    requires Unbalanced(b, av, t, p, left, h, c)
    ensures var l, x, r := t.ks[p], t.es[p], t.ks[p + 1];
      && Branching(l) && Branching(r) && |l.es| <= c && |r.es| <= c
      && Sorted(l.es) && Sorted(r.es) && Below(l.es, x.id) && Above(r.es, x.id)
      && |l.es| >= (if left then c / 2 - 1 else c / 2) && |r.es| >= (if left then c / 2 else c / 2 - 1)
      && (left ==> |l.es| < c) && (!left ==> |r.es| < c)
  {
    PairShape(t, p, left, h, c);
    PairOrder(t, p);
  }

  // A subtree after one entry was taken out of it: same place, no new sectors, at most one entry
  // short; without the balance flag the root still holds its minimum.
  ghost predicate Trimmed(b: map<Sector, Block>, t: Tree, t': Tree, h: nat, m: nat, c: nat, balance: bool) {
    && Rep(b, t') && Root(t') == Root(t) && Secs(t') <= Secs(t) && Shape(t', h, m - 1, c)
    && (t'.Br? ==> if balance then |t'.es| < c else |t'.es| >= m)
    && (t'.Nil? ==> !balance)
  }

  // Leaves of the index hold their contents in order.
  lemma {:induction false} LeafFlat(es: seq<Entry>, ks: seq<Tree>)
    requires |ks| == |es| + 1 && forall i :: 0 <= i < |ks| ==> ks[i].Nil?
    ensures Weave(es, ks) == es && SecsAll(ks) == multiset{}
  {
    if |es| > 0 {
      LeafFlat(es[1..], ks[1..]);
    } else {
      assert ks[1..] == [];
    }
  }

  lemma LeafLevel(b: map<Sector, Block>, av: set<Sector>, t: Tree, h: nat, m: int, c: nat)
    requires Stored(b, av, t, h, m, c) && h > 0
    ensures (forall i :: 0 <= i < |Roots(t.ks)| ==> Roots(t.ks)[i] == 0) <==> h == 1
    ensures h == 1 ==> forall i :: 0 <= i < |t.ks| ==> t.ks[i].Nil?
    ensures h > 1 ==> forall i :: 0 <= i < |t.ks| ==> t.ks[i].Br?
  {
    assert ShapeAll(t.ks, h - 1, c) && RepAll(b, t.ks);
    assert Roots(t.ks)[0] == Root(t.ks[0]) && Rep(b, t.ks[0]) && Shape(t.ks[0], h - 1, c / 2, c);
  }

  ghost function Plucked(t: Tree, i: nat): (t': Tree)
    requires Branching(t) && i < |t.es|
    ensures Branching(t') && t'.sec == t.sec && |t'.es| == |t.es| - 1
  {
    Br(t.sec, Without(t.es, i), Without(t.ks, i + 1))
  }

  // take_leaf
  lemma PluckedLeaf(b: map<Sector, Block>, av: set<Sector>, t: Tree, m: nat, c: nat, i: nat)
    requires Stored(b, av, t, 1, m, c) && 1 <= m <= c / 2 && c % 2 == 0 && i < |t.es|
    ensures var t' := Plucked(t, i);
      var b' := b[t.sec := NodeB(Node(Without(t.es, i), Without(Roots(t.ks), i + 1)))];
      && Trimmed(b', t, t', 1, m, c, |t'.es| < (c + 1) / 2)
      && |Flat(t)| == |t.es| && Flat(t)[i] == t.es[i] && Flat(t') == Without(Flat(t), i)
      && SameOff(b, b', Secs(t), {})
  {
    hide Sorted, Above, Lone, Weave, SecsAll, Flat, Secs;
    var t' := Plucked(t, i);
    var b' := b[t.sec := NodeB(Node(Without(t.es, i), Without(Roots(t.ks), i + 1)))];
    LeafLevel(b, av, t, 1, m, c);
    StoredHeight(b, av, t, 1, m, c);
    LeafIs(t);
    PluckedKids(t, i, b', c);
    LeafIs(t');
  }

  lemma LeafIs(t: Tree)
    requires Branching(t) && forall j :: 0 <= j < |t.ks| ==> t.ks[j].Nil?
    ensures Flat(t) == t.es && Secs(t) == multiset{t.sec}
  {
    LeafFlat(t.es, t.ks);
  }

  lemma PluckedKids(t: Tree, i: nat, b: map<Sector, Block>, c: nat)
    requires Branching(t) && i < |t.es| && forall j :: 0 <= j < |t.ks| ==> t.ks[j].Nil?
    ensures var t' := Plucked(t, i);
      && (forall j :: 0 <= j < |t'.ks| ==> t'.ks[j].Nil?)
      && Roots(t'.ks) == Without(Roots(t.ks), i + 1) && ShapeAll(t'.ks, 0, c) && RepAll(b, t'.ks)
  {
  }

  lemma RemAt(s: seq<Entry>, i: nat)
    requires Sorted(s) && i < |s|
    ensures Rem(s, s[i].id) == Without(s, i)
  {
    RankIs(s, s[i].id, i);
  }

  // The node around a trimmed child.
  lemma TrimmedKid(b: map<Sector, Block>, b1: map<Sector, Block>, av: set<Sector>, t: Tree, i: nat, k: Tree, h: nat,
                   m: nat, c: nat, balance: bool)
    requires Stored(b, av, t, h, m, c) && h > 1 && i < |t.ks| && SameOff(b, b1, Secs(t.ks[i]), {})
    requires Trimmed(b1, t.ks[i], k, h - 1, c / 2, c, balance)
    ensures var t1 := Exchanged(t, i, k);
      && Rep(b1, t1) && Secs(t1) <= Secs(t) && Lone(Secs(t1), av) && t.sec in b1
      && b1[t.sec] == NodeB(Node(t1.es, Roots(t1.ks))) && Roots(t1.ks) == Roots(t.ks)
      && (balance ==> ShapeBut(t1.ks, i, h - 1, c) && t1.ks[i].Br? && |t1.ks[i].es| < c)
      && (!balance ==> Trimmed(b1, t, t1, h, m, c, false))
      && SameOff(b, b1, Secs(t), {})
  {
    hide Secs, Lone, Roots, SecsAll, Flat;
    SameOffMore(b, b1, Secs(t.ks[i]), av);
    KidsFrame(b, b1, t, i, av);
    ExchangedRep(b1, t, i, k);
    FewerSecs(t, i, k, av);
    KidSameOff(b, b1, t, i);
    TrimmedShape(t, i, k, h - 1, c, balance);
  }

  lemma SameOffMore(b: map<Sector, Block>, b1: map<Sector, Block>, m: multiset<Sector>, av: set<Sector>)
    requires SameOff(b, b1, m, {})
    ensures SameOff(b, b1, m, av)
  {
  }

  lemma FewerSecs(t: Tree, i: nat, k: Tree, av: set<Sector>)
    requires Branching(t) && i < |t.ks| && Secs(k) <= Secs(t.ks[i]) && Lone(Secs(t), av)
    ensures Secs(Exchanged(t, i, k)) <= Secs(t) && Lone(Secs(Exchanged(t, i, k)), av)
  {
    SecsFocus(t.ks, i);
    ReplaceKid(t.es, t.ks, i, k);
    LoneLess(Secs(Exchanged(t, i, k)), Secs(t), av);
  }

  lemma LoneLess(m: multiset<Sector>, n: multiset<Sector>, av: set<Sector>)
    requires m <= n && Lone(n, av)
    ensures Lone(m, av)
  {
    assert forall x :: m[x] <= n[x];
    assert forall x :: x in m ==> x in n;
  }

  lemma KidSameOff(b: map<Sector, Block>, b1: map<Sector, Block>, t: Tree, i: nat)
    requires Branching(t) && i < |t.ks| && SameOff(b, b1, Secs(t.ks[i]), {})
    ensures SameOff(b, b1, Secs(t), {})
  {
    SecsFocus(t.ks, i);
    assert forall x :: x in Secs(t.ks[i]) ==> x in Secs(t);
  }

  lemma TrimmedShape(t: Tree, i: nat, k: Tree, h: nat, c: nat, balance: bool)
    requires Branching(t) && i < |t.ks| && ShapeAll(t.ks, h, c) && h > 0 && Shape(k, h, c / 2 - 1, c)
    requires if balance then |k.es| < c else |k.es| >= c / 2
    ensures var t1 := Exchanged(t, i, k);
      (balance ==> ShapeBut(t1.ks, i, h, c)) && (!balance ==> ShapeAll(t1.ks, h, c))
  {
  }

  lemma RebalancedTrims(b: map<Sector, Block>, t: Tree, t1: Tree, t2: Tree, h: nat, m: nat, c: nat, cont: bool)
    requires h > 1 && Rebalanced(b, t1, t2, h - 1, c, cont) && Branching(t) && Branching(t1) && 1 <= m <= |t.es| <= c
    requires Root(t1) == Root(t) && Secs(t1) <= Secs(t) && |t1.es| == |t.es|
    ensures Trimmed(b, t, t2, h, m, c, cont)
  {
  }

  // Taking the greatest entry below the last child takes the greatest entry of the node.
  lemma MaxOrder(t: Tree, k: Tree, out: Entry)
    requires Branching(t) && Sorted(Flat(t)) && Flat(t.ks[|t.es|]) == Flat(k) + [out]
    ensures Flat(t) == Flat(Exchanged(t, |t.es|, k)) + [out] && Sorted(Flat(Exchanged(t, |t.es|, k)))
  {
    var n := |t.es|;
    Focus(t.es, t.ks, n);
    ReplaceKid(t.es, t.ks, n, k);
    var a, t1 := Lft(t.es, t.ks, n), Exchanged(t, n, k);
    assert Flat(t1) == a + Flat(k);
    assert Flat(t) == (a + Flat(k)) + [out];
    SortedAppend(Flat(t1), [out]);
  }

  // The same for the least entry below the first child.
  lemma MinOrder(t: Tree, k: Tree, out: Entry)
    requires Branching(t) && Sorted(Flat(t)) && Flat(t.ks[0]) == [out] + Flat(k)
    ensures Flat(t) == [out] + Flat(Exchanged(t, 0, k)) && Sorted(Flat(Exchanged(t, 0, k)))
  {
    Focus(t.es, t.ks, 0);
    ReplaceKid(t.es, t.ks, 0, k);
    var z, t1 := Rgt(t.es, t.ks, 0), Exchanged(t, 0, k);
    assert Lft(t.es, t.ks, 0) == [];
    assert Flat(t1) == Flat(k) + z;
    assert Flat(t) == [out] + (Flat(k) + z);
    SortedAppend([out], Flat(t1));
  }

  lemma WithoutFirst<T>(s: seq<T>)
    requires |s| > 0
    ensures s == [s[0]] + Without(s, 0)
  {
  }

  // Removing below the searched child removes from the node.
  lemma KidRemOrder(t: Tree, i: nat, k: Tree, key: nat)
    requires Branching(t) && Sorted(Flat(t)) && i == Rank(t.es, key) && (i < |t.es| ==> t.es[i].id != key)
    requires Flat(k) == Rem(Flat(t.ks[i]), key)
    ensures Flat(Exchanged(t, i, k)) == Rem(Flat(t), key) && Sorted(Flat(Exchanged(t, i, k)))
  {
    Focus(t.es, t.ks, i);
    Descend(t.es, t.ks, key);
    ReplaceKid(t.es, t.ks, i, k);
    RemMid(Lft(t.es, t.ks, i), Flat(t.ks[i]), Rgt(t.es, t.ks, i), key);
    RemSorted(Flat(t), key);
  }

  // Putting the predecessor in the place of an entry removes that entry.
  lemma PredOrder(t: Tree, i: nat, k: Tree, pred: Entry)
    requires Branching(t) && Sorted(Flat(t)) && i < |t.es| && Flat(t.ks[i]) == Flat(k) + [pred]
    ensures var t1 := Paired(t, i, k, pred, t.ks[i + 1]);
      Flat(t1) == Rem(Flat(t), t.es[i].id) && Sorted(Flat(t1))
  {
    hide Flat, OuterLeft, OuterRight, Rem, Secs;
    var x, r := t.es[i], t.ks[i + 1];
    var a, b := OuterLeft(t, i), OuterRight(t, i);
    PairedSelf(t, i);
    PairedParts(t, i, t.ks[i], x, r);
    PairedParts(t, i, k, pred, r);
    Regroup(a, Flat(t.ks[i]), [x], Flat(r), b);
    RemSplit(a + Flat(t.ks[i]), x, Flat(r) + b);
    Assoc4(a, Flat(t.ks[i]), Flat(r), b);
    assert a + (Flat(t.ks[i]) + Flat(r)) + b == (a + Flat(t.ks[i])) + (Flat(r) + b);
    RemSorted(Flat(t), x.id);
  }

  // The same for the successor.
  lemma SuccOrder(t: Tree, i: nat, k: Tree, succ: Entry)
    requires Branching(t) && Sorted(Flat(t)) && i < |t.es| && Flat(t.ks[i + 1]) == [succ] + Flat(k)
    ensures var t1 := Paired(t, i, t.ks[i], succ, k);
      Flat(t1) == Rem(Flat(t), t.es[i].id) && Sorted(Flat(t1))
  {
    var x, l := t.es[i], t.ks[i];
    var a, b := OuterLeft(t, i), OuterRight(t, i);
    PairedSelf(t, i);
    PairedParts(t, i, l, x, t.ks[i + 1]);
    PairedParts(t, i, l, succ, k);
    Regroup(a, Flat(l), [x], Flat(t.ks[i + 1]), b);
    RemSplit(a + Flat(l), x, Flat(t.ks[i + 1]) + b);
    SuccGroup(a, Flat(l), [succ], Flat(k), b);
    RemSorted(Flat(t), x.id);
  }

  lemma SuccGroup<T>(a: seq<T>, l: seq<T>, x: seq<T>, k: seq<T>, b: seq<T>)
    ensures a + (l + x + k) + b == (a + l) + ((x + k) + b)
  {
  }

  lemma RemSplit(a: seq<Entry>, x: Entry, b: seq<Entry>)
    requires Sorted(a + [x] + b)
    ensures Rem(a + [x] + b, x.id) == a + b
  {
    var s := a + [x] + b;
    assert s[|a|] == x;
    RemAt(s, |a|);
    assert Without(s, |a|) == a + b;
  }

  // The node around a trimmed child, with the entry j that was taken below written over.
  lemma KidAndEntry(b: map<Sector, Block>, b1: map<Sector, Block>, av: set<Sector>, t: Tree, i: nat, k: Tree, j: nat,
                    x: Entry, t1: Tree, h: nat, m: nat, c: nat, balance: bool)
    requires Stored(b, av, t, h, m, c) && h > 1 && i < |t.ks| && j < |t.es| && SameOff(b, b1, Secs(t.ks[i]), {})
    requires Trimmed(b1, t.ks[i], k, h - 1, c / 2, c, balance)
    requires t1 == Br(t.sec, t.es[j := x], t.ks[i := k])
    ensures var b2 := b1[t.sec := NodeB(Node(t.es[j := x], Roots(t.ks)))];
      && Rep(b2, t1) && Secs(t1) <= Secs(t) && Lone(Secs(t1), av)
      && Node(t1.es, Roots(t1.ks)) == Node(t.es[j := x], Roots(t.ks))
      && (balance ==> ShapeBut(t1.ks, i, h - 1, c) && t1.ks[i].Br? && |t1.ks[i].es| < c)
      && (!balance ==> Trimmed(b2, t, t1, h, m, c, false))
      && SameOff(b, b2, Secs(t), {})
  {
    hide Secs, Lone, Roots, SecsAll, Flat;
    var e := Exchanged(t, i, k);
    var b2 := b1[t.sec := NodeB(Node(t.es[j := x], Roots(t.ks)))];
    TrimmedKid(b, b1, av, t, i, k, h, m, c, balance);
    assert t1.ks == e.ks;
    BranchSecs(e);
    BranchSecs(t1);
    OwnSecs(t);
    LoneRoot(e, av);
    AtOnly(b1, b2, t.sec, SecsAll(e.ks));
    RepAllFrame(b1, b2, e.ks);
    OffAt(b, b1, b2, t.sec, Secs(t));
    TrimmedShape(t, i, k, h - 1, c, balance);
  }

  lemma PairedOne(t: Tree, p: nat, l: Tree, x: Entry, r: Tree)
    requires Branching(t) && p < |t.es|
    ensures r == t.ks[p + 1] ==> Paired(t, p, l, x, r) == Br(t.sec, t.es[p := x], t.ks[p := l])
    ensures l == t.ks[p] ==> Paired(t, p, l, x, r) == Br(t.sec, t.es[p := x], t.ks[p + 1 := r])
  {
    assert r == t.ks[p + 1] ==> t.ks[p := l][p + 1 := r] == t.ks[p := l];
    assert l == t.ks[p] ==> t.ks[p := l][p + 1 := r] == t.ks[p + 1 := r];
  }

  lemma OwnSecs(t: Tree)
    requires t.Br?
    ensures t.sec in Secs(t)
  {
  }

  lemma AtOnly(b: map<Sector, Block>, b': map<Sector, Block>, x: Sector, m: multiset<Sector>)
    requires x in b' && b' == b[x := b'[x]] && x !in m
    ensures SameOn(b, b', m)
  {
  }

  lemma OffAt(b: map<Sector, Block>, b1: map<Sector, Block>, b2: map<Sector, Block>, x: Sector, m: multiset<Sector>)
    requires SameOff(b, b1, m, {}) && x in b && x in b2 && b2 == b1[x := b2[x]] && x in m
    ensures SameOff(b, b2, m, {})
  {
  }

  lemma StoredMin(b: map<Sector, Block>, av: set<Sector>, t: Tree, h: nat, m: int, c: nat)
    requires Stored(b, av, t, h, m, c) && h > 0
    ensures m <= |t.es| && t.sec != 0
  {
  }

  lemma StoredAnyKid(b: map<Sector, Block>, av: set<Sector>, t: Tree, h: nat, m: int, c: nat, i: nat)
    requires Stored(b, av, t, h, m, c) && h > 0 && i < |t.ks|
    ensures Stored(b, av, t.ks[i], h - 1, c / 2, c) && Root(t.ks[i]) == Roots(t.ks)[i]
  {
    hide Weave, Lft, Rgt, SecsAll, Sorted, Above;
    var a, f, z := Lft(t.es, t.ks, i), Flat(t.ks[i]), Rgt(t.es, t.ks, i);
    assert ShapeAll(t.ks, h - 1, c) && RepAll(b, t.ks);
    assert Shape(t.ks[i], h - 1, c / 2, c) && Rep(b, t.ks[i]);
    Focus(t.es, t.ks, i);
    SortedAppend(a + f, z);
    SortedAppend(a, f);
    AboveAppend(a + f, z, 0);
    AboveAppend(a, f, 0);
    SecsFocus(t.ks, i);
    LoneKid(multiset{t.sec} + SecsAll(t.ks[..i]), Secs(t.ks[i]), SecsAll(t.ks[i + 1..]), av);
    assert Secs(t) == multiset{t.sec} + SecsAll(t.ks[..i]) + Secs(t.ks[i]) + SecsAll(t.ks[i + 1..]);
  }

  lemma LeafContents(b: map<Sector, Block>, av: set<Sector>, t: Tree, m: int, c: nat)
    requires Stored(b, av, t, 1, m, c)
    ensures Flat(t) == t.es
  {
    LeafLevel(b, av, t, 1, m, c);
    LeafFlat(t.es, t.ks);
  }

  lemma LeafRem(b: map<Sector, Block>, av: set<Sector>, t: Tree, m: int, c: nat, i: nat)
    requires Stored(b, av, t, 1, m, c) && i < |t.es|
    ensures i < |Flat(t)| && Rem(Flat(t), t.es[i].id) == Without(Flat(t), i)
  {
    LeafContents(b, av, t, m, c);
    RemAt(Flat(t), i);
  }

  lemma ExchangedSelf(t: Tree, i: nat)
    requires Branching(t) && i < |t.ks|
    ensures Exchanged(t, i, t.ks[i]) == t
  {
    assert t.ks[i := t.ks[i]] == t.ks;
  }

  lemma WithoutLast<T>(s: seq<T>)
    requires |s| > 0
    ensures s == Without(s, |s| - 1) + [s[|s| - 1]]
  {
  }

  lemma MakeUnbalanced(b: map<Sector, Block>, av: set<Sector>, t: Tree, p: nat, left: bool, h: nat, c: nat)
    requires Branching(t) && p < |t.es| && Rep(b, t) && Sorted(Flat(t)) && Lone(Secs(t), av) && h > 0
    requires var i := if left then p else p + 1; ShapeBut(t.ks, i, h, c) && t.ks[i].Br? && |t.ks[i].es| < c
    ensures Unbalanced(b, av, t, p, left, h, c)
  {
  }

  lemma SameOffSmaller(b: map<Sector, Block>, b1: map<Sector, Block>, b2: map<Sector, Block>, m: multiset<Sector>,
                       n: multiset<Sector>)
    requires SameOff(b, b1, m, {}) && SameOff(b1, b2, n, {}) && n <= m
    ensures SameOff(b, b2, m, {})
  {
    assert forall x :: n[x] <= m[x];
    assert forall x :: x in n ==> x in m;
    forall x | x in b2 ensures x in b {
      assert x in b1;
    }
  }

  // The key is not there.
  lemma NothingTaken(b: map<Sector, Block>, av: set<Sector>, t: Tree, h: nat, m: nat, c: nat, k: nat)
    requires Stored(b, av, t, h, m, c) && (t.Br? ==> !Has(Flat(t), k))
    ensures !Has(Flat(t), k) && Rem(Flat(t), k) == Flat(t) && Trimmed(b, t, t, h, m, c, false)
  {
  }

  // The whole tree after a removal.
  lemma TrimmedRoot(b: map<Sector, Block>, b1: map<Sector, Block>, av: set<Sector>, t: Tree, t': Tree, h: nat, c: nat,
                    balance: bool, k: nat)
    requires Stored(b, av, t, h, 1, c) && Trimmed(b1, t, t', h, 1, c, balance) && Flat(t') == Rem(Flat(t), k)
    ensures Stored(b1, av, t', h, 0, c) && Root(t') == Root(t) && Secs(t') <= Secs(t)
    ensures balance ==> t'.Br? && h > 0 && |t'.es| <= c && |t'.ks| == |t'.es| + 1
    ensures balance ==> t'.sec in b1 && b1[t'.sec] == NodeB(Node(t'.es, Roots(t'.ks)))
    ensures !balance || |t'.es| > 0 ==> Stored(b1, av, t', h, 1, c)
  {
    RemSorted(Flat(t), k);
    LoneLess(Secs(t'), Secs(t), av);
  }

  // A root without entries has one child, which becomes the root.
  lemma EmptyRoot(b: map<Sector, Block>, av: set<Sector>, t: Tree, h: nat, c: nat)
    requires Stored(b, av, t, h, 0, c) && h > 0 && |t.es| == 0 && 2 <= c
    ensures |t.ks| == 1 && Stored(b, av, t.ks[0], h - 1, 1, c)
    ensures Flat(t.ks[0]) == Flat(t) && Secs(t.ks[0]) <= Secs(t) && Roots(t.ks)[0] == Root(t.ks[0])
  {
    StoredAnyKid(b, av, t, h, 0, c, 0);
    SecsFocus(t.ks, 0);
  }

  lemma HomesLess(b: map<Sector, Block>, s: seq<Entry>, m: multiset<Sector>, n: multiset<Sector>, av: set<Sector>)
    requires Homes(b, s, m, av) && n <= m
    ensures Homes(b, s, n, av)
  {
    assert forall x :: n[x] <= m[x];
    forall i | 0 <= i < |s| ensures HomeAt(b, s[i].offset, n, av) { assert HomeAt(b, s[i].offset, m, av); }
  }

  lemma HomesRem(b: map<Sector, Block>, b1: map<Sector, Block>, s: seq<Entry>, m: multiset<Sector>,
                 m1: multiset<Sector>, av: set<Sector>, k: nat)
    requires Homes(b, s, m, av) && SameOff(b, b1, m, {}) && m1 <= m
    ensures Homes(b1, Rem(s, k), m1, av)
  {
    var t, r := Rem(s, k), Rank(s, k);
    assert forall x :: m1[x] <= m[x];
    forall i | 0 <= i < |t| ensures HomeAt(b1, t[i].offset, m1, av) {
      if t == s || i < r { assert HomeAt(b, s[i].offset, m, av); } else { assert HomeAt(b, s[i + 1].offset, m, av); }
    }
  }

  lemma InodesRem(b: map<Sector, Block>, b1: map<Sector, Block>, s: seq<Entry>, m: multiset<Sector>, av: set<Sector>,
                  k: nat)
    requires Homes(b, s, m, av) && SameOff(b, b1, m, {}) && Sorted(s)
    ensures Inodes(b1, Rem(s, k)) == Inodes(b, s) - {k}
  {
    hide ToMap, Rem, Sorted;
    RemIsMapRemove(s, k);
    var n := ToMap(s);
    forall x | x in n ensures n[x] in b && b[n[x]].InodeB? && n[x] in b1 && b1[n[x]] == b[n[x]] {
      var i := MapOrigin(s, x);
      assert HomeAt(b, s[i].offset, m, av);
    }
  }
}
