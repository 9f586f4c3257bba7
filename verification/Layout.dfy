// How a tree lies on disk, and what one level of an insertion does to it.

module Layouts {
  import opened Entries
  import opened Disks
  import opened BNodes
  import opened Trees

  // Every branch is stored in its sector, naming its children by theirs.
  ghost predicate Rep(b: map<Sector, Block>, t: Tree)
    decreases t, 0
  {
    t.Br? ==>
      && t.sec != 0 && t.sec in b && b[t.sec] == NodeB(Node(t.es, Roots(t.ks)))
      && RepAll(b, t.ks)
  }

  ghost predicate RepAll(b: map<Sector, Block>, ks: seq<Tree>)
    decreases ks, 1
  {
    forall i :: 0 <= i < |ks| ==> Rep(b, ks[i])
  }

  // No sector is used twice, none is free.
  ghost predicate Lone(m: multiset<Sector>, av: set<Sector>) {
    forall x :: x in m ==> m[x] == 1 && x !in av
  }

  ghost predicate SameOn(b: map<Sector, Block>, b': map<Sector, Block>, m: multiset<Sector>) {
    forall x :: x in m && x in b ==> x in b' && b'[x] == b[x]
  }

  lemma {:induction false} RepFrame(b: map<Sector, Block>, b': map<Sector, Block>, t: Tree)
    requires Rep(b, t) && SameOn(b, b', Secs(t))
    ensures Rep(b', t)
    decreases t, 0
  {
    if t.Br? {
      RepAllFrame(b, b', t.ks);
    }
  }

  lemma {:induction false} RepAllFrame(b: map<Sector, Block>, b': map<Sector, Block>, ks: seq<Tree>)
    requires RepAll(b, ks) && SameOn(b, b', SecsAll(ks))
    ensures RepAll(b', ks)
    decreases ks, 1
  {
    forall i | 0 <= i < |ks| ensures Rep(b', ks[i]) {
      SecsFocus(ks, i);
      RepFrame(b, b', ks[i]);
    }
  }

  // Work below child i and in free sectors leaves the node and the other children alone.
  lemma KidsFrame(b: map<Sector, Block>, b': map<Sector, Block>, t: Tree, i: nat, av: set<Sector>)
    requires t.Br? && Rep(b, t) && Lone(Secs(t), av) && i < |t.ks|
    requires SameOff(b, b', Secs(t.ks[i]), av)
    ensures t.sec in b' && b'[t.sec] == b[t.sec] && t.sec !in Secs(t.ks[i])
    ensures RepAll(b', t.ks[..i]) && RepAll(b', t.ks[i + 1..])
    ensures SameOff(b, b', Secs(t), av)
  {
    var ks := t.ks;
    SecsFocus(ks, i);
    var l, k, r := SecsAll(ks[..i]), Secs(ks[i]), SecsAll(ks[i + 1..]);
    LoneParts(multiset{t.sec}, l, k, r, av);
    assert SameOn(b, b', multiset{t.sec}) && SameOn(b, b', l) && SameOn(b, b', r);
    assert RepAll(b, ks[..i]) && RepAll(b, ks[i + 1..]);
    RepAllFrame(b, b', ks[..i]);
    RepAllFrame(b, b', ks[i + 1..]);
    assert t.sec in multiset{t.sec};
  }

  lemma LoneParts(o: multiset<Sector>, l: multiset<Sector>, k: multiset<Sector>, r: multiset<Sector>, av: set<Sector>)
    requires Lone(o + (l + k + r), av)
    ensures forall x :: x in o || x in l || x in r ==> x !in k && x !in av
    ensures forall x :: x in k ==> x in o + (l + k + r)
  {
    var m := o + (l + k + r);
    assert forall x :: m[x] == o[x] + l[x] + k[x] + r[x];
    forall x | (x in o || x in l || x in r) ensures x !in k && x !in av {
      assert x in m;
    }
  }

  // struct btree_bubble: the separator on its way up and the node to its right.
  datatype Bubble = Bubble(entry: Entry, greater: Sector) {
    predicate Active() { entry.id != 0 }
  }

  const NO_BUBBLE := Bubble(Entry(0, 0), 0)

  // A tree on disk whose root holds at least m entries, in order, clear of the free sectors.
  ghost predicate Stored(b: map<Sector, Block>, av: set<Sector>, t: Tree, h: nat, m: int, c: nat) {
    && Rep(b, t) && Shape(t, h, m, c) && Sorted(Flat(t)) && Above(Flat(t), 0) && Lone(Secs(t), av)
  }

  lemma StoredHeight(b: map<Sector, Block>, av: set<Sector>, t: Tree, h: nat, m: int, c: nat)
    requires Stored(b, av, t, h, m, c)
    ensures t.Nil? <==> h == 0
    ensures t.Br? ==> t.sec != 0
  {
  }

  // A search at a stored node: the entries are in order, a hit is an entry of the tree, and a
  // miss continues in a stored child that holds the key exactly when the tree does.
  lemma StoredNode(b: map<Sector, Block>, av: set<Sector>, t: Tree, h: nat, m: int, c: nat)
    requires Stored(b, av, t, h, m, c) && h > 0
    ensures t.Br? && |t.ks| == |t.es| + 1 && |t.es| <= c && Sorted(t.es)
    ensures t.sec != 0 && t.sec in b && b[t.sec] == NodeB(Node(t.es, Roots(t.ks)))
  {
    EntriesSorted(t.es, t.ks);
  }

  lemma StoredHit(b: map<Sector, Block>, av: set<Sector>, t: Tree, h: nat, m: int, c: nat, i: nat)
    requires Stored(b, av, t, h, m, c) && h > 0 && i < |t.es|
    ensures t.es[i] in Flat(t) && Has(Flat(t), t.es[i].id)
  {
    FocusEntry(t.es, t.ks, i);
    assert Flat(t)[|Weave(t.es[..i], t.ks[..i + 1])|] == t.es[i];
  }

  lemma StoredKid(b: map<Sector, Block>, av: set<Sector>, t: Tree, h: nat, m: int, c: nat, k: nat, i: nat)
    requires Stored(b, av, t, h, m, c) && h > 0 && i == Rank(t.es, k)
    requires i < |t.es| ==> t.es[i].id != k
    ensures Stored(b, av, t.ks[i], h - 1, c / 2, c)
    ensures Has(Flat(t), k) <==> Has(Flat(t.ks[i]), k)
    ensures forall e :: e in Flat(t.ks[i]) ==> e in Flat(t)
  {
    hide Weave, Lft, Rgt, SecsAll, Rank, Has, Below, Sorted;
    var es, ks := t.es, t.ks;
    assert ShapeAll(ks, h - 1, c) && RepAll(b, ks);
    assert Shape(ks[i], h - 1, c / 2, c) && Rep(b, ks[i]);
    Focus(es, ks, i);
    Descend(es, ks, k);
    HasMid(Lft(es, ks, i), Flat(ks[i]), Rgt(es, ks, i), k);
    SecsFocus(ks, i);
    assert Secs(t) == multiset{t.sec} + SecsAll(ks[..i]) + Secs(ks[i]) + SecsAll(ks[i + 1..]);
    LoneKid(multiset{t.sec} + SecsAll(ks[..i]), Secs(ks[i]), SecsAll(ks[i + 1..]), av);
  }

  lemma HasMid(a: seq<Entry>, m: seq<Entry>, b: seq<Entry>, k: nat)
    requires Below(a, k) && Above(b, k)
    ensures Has(a + m + b, k) <==> Has(m, k)
    ensures forall e :: e in m ==> e in a + m + b
    ensures Above(a + m + b, 0) ==> Above(m, 0)
  {
    var s := a + m + b;
    assert forall i :: 0 <= i < |m| ==> m[i] == s[|a| + i];
  }

  lemma LoneKid(l: multiset<Sector>, k: multiset<Sector>, r: multiset<Sector>, av: set<Sector>)
    requires Lone(l + k + r, av)
    ensures Lone(k, av)
  {
    assert forall x :: (l + k + r)[x] == l[x] + k[x] + r[x];
    forall x | x in k ensures k[x] == 1 && x !in av { assert x in l + k + r; }
  }

  // What an insertion below t leaves: the tree l in the place of t and, when a separator
  // bubbles up, the tree r to its right.
  ghost predicate Grown(b: map<Sector, Block>, av: set<Sector>, t: Tree, e: Entry, h: nat, m: int, c: nat,
                        av0: set<Sector>, l: Tree, up: Bubble, r: Tree) {
    && Rep(b, l) && Rep(b, r) && Root(l) == Root(t) && Root(r) == up.greater
    && av <= av0 && Lone(Secs(l) + Secs(r), av) && Within(Secs(l) + Secs(r), Secs(t), av0)
    && (if up.Active() then
          && Shape(l, h, c / 2, c) && Shape(r, h, c / 2, c)
          && Flat(l) + [up.entry] + Flat(r) == Ins(Flat(t), e)
        else
          && up == NO_BUBBLE && r.Nil? && Shape(l, h, m, c) && Flat(l) == Ins(Flat(t), e))
  }

  ghost predicate Within(m: multiset<Sector>, m0: multiset<Sector>, av: set<Sector>) {
    forall x :: x in m ==> x in m0 || x in av
  }

  // The node with child i replaced by two subtrees around a separator, disregarding capacity.
  ghost function Swollen(t: Tree, i: nat, l: Tree, x: Entry, r: Tree): (t': Tree)
    requires t.Br? && |t.ks| == |t.es| + 1 && i <= |t.es|
    ensures t'.Br? && |t'.es| == |t.es| + 1 && |t'.ks| == |t'.es| + 1
  {
    Br(t.sec, Put(t.es, i, x), t.ks[..i] + [l] + [r] + t.ks[i + 1..])
  }

  lemma SwollenOrder(t: Tree, i: nat, l: Tree, x: Entry, r: Tree, e: Entry)
    requires t.Br? && |t.ks| == |t.es| + 1 && i == Rank(t.es, e.id)
    requires Sorted(Flat(t)) && !Has(Flat(t), e.id) && (i < |t.es| ==> t.es[i].id != e.id)
    requires Flat(l) + [x] + Flat(r) == Ins(Flat(t.ks[i]), e)
    ensures Flat(Swollen(t, i, l, x, r)) == Ins(Flat(t), e)
    ensures Sorted(t.es) && Rank(t.es, x.id) == i && !Has(t.es, x.id)
  {
    var es, ks := t.es, t.ks;
    var a, b := Lft(es, ks, i), Rgt(es, ks, i);
    Focus(es, ks, i);
    Descend(es, ks, e.id);
    InsertKid(es, ks, i, l, x, r);
    InsMid(a, Flat(ks[i]), b, e);
    InsSorted(Flat(t), e);
    EntriesSorted(es, ks);
    SeparatorRank(es, ks, i, Flat(l), x, Flat(r));
  }

  // A separator that keeps the contents sorted has the rank of the child it came from.
  lemma SeparatorRank(es: seq<Entry>, ks: seq<Tree>, i: nat, f: seq<Entry>, x: Entry, g: seq<Entry>)
    requires |ks| == |es| + 1 && i <= |es| && Sorted(es)
    requires Sorted(Lft(es, ks, i) + (f + [x] + g) + Rgt(es, ks, i))
    ensures Rank(es, x.id) == i && !Has(es, x.id)
  {
    var a, b := Lft(es, ks, i), Rgt(es, ks, i);
    assert a + (f + [x] + g) + b == (a + f) + [x] + (g + b);
    SortedParts(a + f, x, g + b);
    if i > 0 {
      var y := es[i - 1];
      assert (a + f)[|a| - 1] == y;
    }
    if i < |es| {
      assert (g + b)[|g|] == es[i];
    }
    RankIs(es, x.id, i);
    HasRank(es, x.id);
  }

  lemma RootsAppend(a: seq<Tree>, b: seq<Tree>)
    ensures Roots(a + b) == Roots(a) + Roots(b)
  {
  }

  // The node block after the bubble is put in names the children of the swollen node.
  lemma SwollenNode(t: Tree, i: nat, l: Tree, x: Entry, r: Tree)
    requires t.Br? && |t.ks| == |t.es| + 1 && i <= |t.es| && Root(l) == Root(t.ks[i])
    ensures Node(t.es, Roots(t.ks)).es == t.es
    ensures NodePut(Node(t.es, Roots(t.ks)), i, x, Root(r))
         == Node(Swollen(t, i, l, x, r).es, Roots(Swollen(t, i, l, x, r).ks))
  {
    var ks := t.ks;
    RootsAppend(ks[..i] + [l] + [r], ks[i + 1..]);
    RootsAppend(ks[..i] + [l], [r]);
    assert Roots(ks[..i] + [l]) == Roots(ks)[..i + 1];
    assert Roots(ks[i + 1..]) == Roots(ks)[i + 1..];
    assert Roots([r]) == [Root(r)];
  }

  lemma SwollenShape(t: Tree, i: nat, l: Tree, x: Entry, r: Tree, h: nat, c: nat)
    requires t.Br? && |t.ks| == |t.es| + 1 && i <= |t.es| && ShapeAll(t.ks, h, c)
    requires Shape(l, h, c / 2, c) && Shape(r, h, c / 2, c)
    ensures ShapeAll(Swollen(t, i, l, x, r).ks, h, c)
  {
  }

  lemma SwollenRep(b: map<Sector, Block>, t: Tree, i: nat, l: Tree, x: Entry, r: Tree)
    requires t.Br? && |t.ks| == |t.es| + 1 && i <= |t.es| && Rep(b, l) && Rep(b, r)
    requires RepAll(b, t.ks[..i]) && RepAll(b, t.ks[i + 1..])
    ensures RepAll(b, Swollen(t, i, l, x, r).ks)
  {
    var ks := Swollen(t, i, l, x, r).ks;
    forall j | 0 <= j < |ks| ensures Rep(b, ks[j]) {
      if j < i { assert ks[j] == t.ks[..i][j]; }
      if j > i + 1 { assert ks[j] == t.ks[i + 1..][j - i - 2]; }
    }
  }

  // The sectors of the swollen node are those of the parts, still used once each.
  lemma SwollenSecs(t: Tree, i: nat, l: Tree, x: Entry, r: Tree, av0: set<Sector>, av: set<Sector>)
    requires t.Br? && |t.ks| == |t.es| + 1 && i <= |t.es| && Lone(Secs(t), av0) && av <= av0
    requires Lone(Secs(l) + Secs(r), av) && Within(Secs(l) + Secs(r), Secs(t.ks[i]), av0)
    ensures Lone(Secs(Swollen(t, i, l, x, r)), av)
    ensures Within(Secs(Swollen(t, i, l, x, r)), Secs(t), av0)
    ensures Within(Secs(Swollen(t, i, l, x, r)), Secs(t) + (Secs(l) + Secs(r)), av)
  {
    var ks := t.ks;
    SecsFocus(ks, i);
    InsertKid(t.es, ks, i, l, x, r);
    LoneSwap(multiset{t.sec}, SecsAll(ks[..i]), Secs(ks[i]), SecsAll(ks[i + 1..]), Secs(l) + Secs(r), av0, av);
  }

  lemma LoneSwap(o: multiset<Sector>, l: multiset<Sector>, k: multiset<Sector>, r: multiset<Sector>,
                 k': multiset<Sector>, av0: set<Sector>, av: set<Sector>)
    requires Lone(o + (l + k + r), av0) && av <= av0 && Lone(k', av) && Within(k', k, av0)
    ensures Lone(o + (l + k' + r), av) && Within(o + (l + k' + r), o + (l + k + r), av0)
    ensures Within(o + (l + k' + r), o + (l + k + r) + k', av)
  {
    LoneParts(o, l, k, r, av0);
    var m, n := o + (l + k' + r), o + (l + k + r);
    assert forall x :: m[x] == o[x] + l[x] + k'[x] + r[x] && n[x] == o[x] + l[x] + k[x] + r[x];
    forall x | x in m ensures m[x] == 1 && x !in av && (x in n || x in av0) {
      if x in o || x in l || x in r {
        assert x in n && x !in k;
      }
    }
  }

  // A swollen node cut around entry m into its own sector and a new one.
  ghost function LeftOf(t: Tree, m: nat): (l: Tree)
    requires t.Br? && |t.ks| == |t.es| + 1 && m < |t.es|
    ensures l.Br? && l.sec == t.sec
  {
    Br(t.sec, t.es[..m], t.ks[..m + 1])
  }

  ghost function RightOf(t: Tree, m: nat, right: Sector): (r: Tree)
    requires t.Br? && |t.ks| == |t.es| + 1 && m < |t.es|
    ensures r.Br? && r.sec == right
  {
    Br(right, t.es[m + 1..], t.ks[m + 1..])
  }

  lemma CutTree(t: Tree, m: nat, right: Sector)
    requires t.Br? && |t.ks| == |t.es| + 1 && m < |t.es|
    ensures Flat(LeftOf(t, m)) + [t.es[m]] + Flat(RightOf(t, m, right)) == Flat(t)
    ensures Secs(LeftOf(t, m)) + Secs(RightOf(t, m, right)) == multiset{right} + Secs(t)
    ensures var n := Node(t.es, Roots(t.ks));
      && Cut(n, m) == Node(LeftOf(t, m).es, Roots(LeftOf(t, m).ks))
      && Half(n, m) == Node(RightOf(t, m, right).es, Roots(RightOf(t, m, right).ks))
  {
    var es, ks := t.es, t.ks;
    FocusEntry(es, ks, m);
    assert ks == ks[..m + 1] + ks[m + 1..];
    SecsAppend(ks[..m + 1], ks[m + 1..]);
    assert Roots(ks)[..m + 1] == Roots(ks[..m + 1]);
    assert Roots(ks)[m + 1..] == Roots(ks[m + 1..]);
  }

  // The node with child i exchanged for another tree.
  ghost function Exchanged(t: Tree, i: nat, k: Tree): (t': Tree)
    requires t.Br? && |t.ks| == |t.es| + 1 && i <= |t.es|
    ensures t'.Br? && t'.sec == t.sec && t'.es == t.es && |t'.ks| == |t.ks|
  {
    Br(t.sec, t.es, t.ks[i := k])
  }

  lemma ExchangedRep(b: map<Sector, Block>, t: Tree, i: nat, k: Tree)
    requires t.Br? && |t.ks| == |t.es| + 1 && i <= |t.es|
    requires Rep(b, k) && Root(k) == Root(t.ks[i])
    requires RepAll(b, t.ks[..i]) && RepAll(b, t.ks[i + 1..])
    ensures RepAll(b, Exchanged(t, i, k).ks) && Roots(Exchanged(t, i, k).ks) == Roots(t.ks)
  {
    var ks, ks' := t.ks, t.ks[i := k];
    forall j | 0 <= j < |ks| ensures Rep(b, ks'[j]) {
      if j < i { assert ks'[j] == ks[..i][j]; }
      if j > i { assert ks'[j] == ks[i + 1..][j - i - 1]; }
    }
    assert Roots(ks') == Roots(ks);
  }

  lemma ExchangedSecs(t: Tree, i: nat, k: Tree, av0: set<Sector>, av: set<Sector>)
    requires t.Br? && |t.ks| == |t.es| + 1 && i <= |t.es| && Lone(Secs(t), av0) && av <= av0
    requires Lone(Secs(k), av) && Within(Secs(k), Secs(t.ks[i]), av0)
    ensures Lone(Secs(Exchanged(t, i, k)), av) && Within(Secs(Exchanged(t, i, k)), Secs(t), av0)
    ensures Within(Secs(Exchanged(t, i, k)), Secs(t) + Secs(k), av)
  {
    SecsFocus(t.ks, i);
    ReplaceKid(t.es, t.ks, i, k);
    LoneSwap(multiset{t.sec}, SecsAll(t.ks[..i]), Secs(t.ks[i]), SecsAll(t.ks[i + 1..]), Secs(k), av0, av);
  }

  lemma ExchangedShape(t: Tree, i: nat, k: Tree, h: nat, c: nat)
    requires t.Br? && |t.ks| == |t.es| + 1 && i <= |t.es| && ShapeAll(t.ks, h, c) && Shape(k, h, c / 2, c)
    ensures ShapeAll(Exchanged(t, i, k).ks, h, c)
  {
  }

  lemma ExchangedOrder(t: Tree, i: nat, k: Tree, e: Entry)
    requires t.Br? && |t.ks| == |t.es| + 1 && i == Rank(t.es, e.id)
    requires Sorted(Flat(t)) && (i < |t.es| ==> t.es[i].id != e.id)
    requires Flat(k) == Ins(Flat(t.ks[i]), e)
    ensures Flat(Exchanged(t, i, k)) == Ins(Flat(t), e)
  {
    Focus(t.es, t.ks, i);
    Descend(t.es, t.ks, e.id);
    ReplaceKid(t.es, t.ks, i, k);
    InsMid(Lft(t.es, t.ks, i), Flat(t.ks[i]), Rgt(t.es, t.ks, i), e);
  }

  lemma StoredFrame(b: map<Sector, Block>, b': map<Sector, Block>, t: Tree, i: nat, av: set<Sector>, h: nat, m: int,
                    c: nat)
    requires Stored(b, av, t, h, m, c) && t.Br? && i < |t.ks|
    requires SameOff(b, b', Secs(t.ks[i]), av)
    ensures SameOff(b, b', Secs(t), av)
  {
    KidsFrame(b, b', t, i, av);
  }

  lemma GrownQuiet(b: map<Sector, Block>, av: set<Sector>, t: Tree, e: Entry, h: nat, m: int, c: nat,
                   av0: set<Sector>, l: Tree, up: Bubble, r: Tree)
    requires Grown(b, av, t, e, h, m, c, av0, l, up, r) && !up.Active()
    ensures up == NO_BUBBLE && r.Nil?
  {
  }

  // One level of btree_insert after the child returned without a bubble.
  lemma StepQuiet(b: map<Sector, Block>, b1: map<Sector, Block>, av: set<Sector>, av1: set<Sector>, t: Tree, i: nat,
                  e: Entry, h: nat, m: int, c: nat, k: Tree)
    requires Stored(b, av, t, h, m, c) && h > 0 && !Has(Flat(t), e.id)
    requires i == Rank(t.es, e.id) && (i < |t.es| ==> t.es[i].id != e.id)
    requires SameOff(b, b1, Secs(t.ks[i]), av)
    requires Grown(b1, av1, t.ks[i], e, h - 1, c / 2, c, av, k, NO_BUBBLE, Nil)
    ensures Grown(b1, av1, t, e, h, m, c, av, Exchanged(t, i, k), NO_BUBBLE, Nil)
    ensures Within(Secs(Exchanged(t, i, k)) + Secs(Nil), Secs(t) + (Secs(k) + Secs(Nil)), av1)
  {
    hide Flat, Ins, Secs, Lone, Within, SameOff, Roots;
    KidsFrame(b, b1, t, i, av);
    ExchangedRep(b1, t, i, k);
    NilSecs(k);
    NilSecs(Exchanged(t, i, k));
    ExchangedSecs(t, i, k, av, av1);
    ExchangedOrder(t, i, k, e);
    ExchangedShape(t, i, k, h - 1, c);
    assert Rep(b1, Nil);
  }

  lemma NilSecs(t: Tree)
    ensures Secs(t) + Secs(Nil) == Secs(t)
  {
  }

  // After a bubble arrived: the swollen node, still below the old root sector.
  lemma StepSwell(b: map<Sector, Block>, b1: map<Sector, Block>, av: set<Sector>, av1: set<Sector>, t: Tree, i: nat,
                  e: Entry, h: nat, m: int, c: nat, l: Tree, up: Bubble, r: Tree)
    requires Stored(b, av, t, h, m, c) && h > 0 && !Has(Flat(t), e.id)
    requires i == Rank(t.es, e.id) && (i < |t.es| ==> t.es[i].id != e.id)
    requires SameOff(b, b1, Secs(t.ks[i]), av) && up.Active() && e.id != 0
    requires Grown(b1, av1, t.ks[i], e, h - 1, c / 2, c, av, l, up, r)
    ensures var s := Swollen(t, i, l, up.entry, r);
      && Flat(s) == Ins(Flat(t), e) && Sorted(t.es) && Rank(t.es, up.entry.id) == i && !Has(t.es, up.entry.id)
      && RepAll(b1, s.ks) && ShapeAll(s.ks, h - 1, c)
      && Lone(Secs(s), av1) && Within(Secs(s), Secs(t), av) && av1 <= av
      && Within(Secs(s), Secs(t) + (Secs(l) + Secs(r)), av1)
      && m < |s.es| && Above(Flat(s), 0) && t.sec in b1
      && NodeIns(Node(t.es, Roots(t.ks)), up.entry, up.greater) == Node(s.es, Roots(s.ks))
  {
    hide Flat, Ins, Secs, Lone, Within, SameOff, Roots, Rank, Has, Sorted, Above, NodePut;
    KidsFrame(b, b1, t, i, av);
    SwollenOrder(t, i, l, up.entry, r, e);
    SwollenNode(t, i, l, up.entry, r);
    SwollenShape(t, i, l, up.entry, r, h - 1, c);
    SwollenRep(b1, t, i, l, up.entry, r);
    SwollenSecs(t, i, l, up.entry, r, av, av1);
    InsAbove(Flat(t), e);
  }

  lemma InsAbove(s: seq<Entry>, e: Entry)
    requires Above(s, 0) && e.id != 0
    ensures Above(Ins(s, e), 0)
  {
  }

  // The node had room for the bubble.
  lemma StepFits(b1: map<Sector, Block>, av1: set<Sector>, t: Tree, s: Tree, e: Entry, h: nat, m: int, c: nat,
                 av: set<Sector>)
    requires s.Br? && t.Br? && s.sec == t.sec != 0 && |s.es| <= c && m <= |s.es| && |s.ks| == |s.es| + 1 && h > 0
    requires Flat(s) == Ins(Flat(t), e) && RepAll(b1, s.ks) && ShapeAll(s.ks, h - 1, c)
    requires Lone(Secs(s), av1) && Within(Secs(s), Secs(t), av) && av1 <= av
    ensures Grown(b1[s.sec := NodeB(Node(s.es, Roots(s.ks)))], av1, t, e, h, m, c, av, s, NO_BUBBLE, Nil)
    ensures Within(Secs(s) + Secs(Nil), Secs(s), av1)
  {
    var b2 := b1[s.sec := NodeB(Node(s.es, Roots(s.ks)))];
    LoneRoot(s, av1);
    RepAllFrame(b1, b2, s.ks);
    assert Secs(s) + Secs(Nil) == Secs(s);
  }

  lemma LoneRoot(s: Tree, av: set<Sector>)
    requires s.Br? && Lone(Secs(s), av)
    ensures s.sec !in SecsAll(s.ks) && s.sec !in av
    ensures forall x :: x in SecsAll(s.ks) ==> x !in av
  {
    assert s.sec in Secs(s);
    assert forall x :: x in SecsAll(s.ks) ==> x in Secs(s);
  }

  // The node was full: half of it moves to the new sector and the median bubbles on.
  lemma StepSplits(b1: map<Sector, Block>, av1: set<Sector>, t: Tree, s: Tree, e: Entry, h: nat, m: int, c: nat,
                   av: set<Sector>, right: Sector)
    requires s.Br? && t.Br? && s.sec == t.sec != 0 && |s.es| == c + 1 && |s.ks| == |s.es| + 1 && h > 0
    requires 2 <= c && c % 2 == 0 && right != 0 && right in av1 && Above(Flat(s), 0)
    requires Flat(s) == Ins(Flat(t), e) && RepAll(b1, s.ks) && ShapeAll(s.ks, h - 1, c)
    requires Lone(Secs(s), av1) && Within(Secs(s), Secs(t), av) && av1 <= av
    ensures var n, k := Node(s.es, Roots(s.ks)), c / 2;
      Grown(b1[right := NodeB(Half(n, k))][s.sec := NodeB(Cut(n, k))], av1 - {right}, t, e, h, m, c, av,
            LeftOf(s, k), Bubble(s.es[k], right), RightOf(s, k, right))
    ensures Within(Secs(LeftOf(s, c / 2)) + Secs(RightOf(s, c / 2, right)), Secs(s), av1)
    ensures s.es[c / 2].id != 0
  {
    hide Flat, Ins, Secs, Lone, Within, SameOff, Roots, Cut, Half, LeftOf, RightOf;
    var n, k := Node(s.es, Roots(s.ks)), c / 2;
    var b2 := b1[right := NodeB(Half(n, k))][s.sec := NodeB(Cut(n, k))];
    CutTree(s, k, right);
    CutFacts(s, k, right, h, c);
    LoneRoot(s, av1);
    RepAllFrame(b1, b2, s.ks);
    HalvesRep(b2, s, k, right);
    AddSector(Secs(s), right, Secs(t), av1, av);
  }

  lemma CutFacts(s: Tree, k: nat, right: Sector, h: nat, c: nat)
    requires s.Br? && |s.ks| == |s.es| + 1 && |s.es| == c + 1 && k == c / 2 && c % 2 == 0
    requires h > 0 && ShapeAll(s.ks, h - 1, c) && Above(Flat(s), 0)
    ensures Shape(LeftOf(s, k), h, c / 2, c) && Shape(RightOf(s, k, right), h, c / 2, c)
    ensures s.es[k].id != 0
  {
    CutTree(s, k, right);
    assert Flat(s)[|Flat(LeftOf(s, k))|] == s.es[k];
  }

  lemma HalvesRep(b: map<Sector, Block>, s: Tree, k: nat, right: Sector)
    requires s.Br? && |s.ks| == |s.es| + 1 && k < |s.es| && RepAll(b, s.ks)
    requires s.sec != 0 && s.sec in b && right != 0 && right in b
    requires b[s.sec] == NodeB(Node(LeftOf(s, k).es, Roots(LeftOf(s, k).ks)))
    requires b[right] == NodeB(Node(RightOf(s, k, right).es, Roots(RightOf(s, k, right).ks)))
    ensures Rep(b, LeftOf(s, k)) && Rep(b, RightOf(s, k, right))
  {
  }

  lemma AddSector(m: multiset<Sector>, x: Sector, m0: multiset<Sector>, av1: set<Sector>, av: set<Sector>)
    requires Lone(m, av1) && Within(m, m0, av) && x in av1 && av1 <= av
    ensures Lone(multiset{x} + m, av1 - {x}) && Within(multiset{x} + m, m0, av)
    ensures Within(multiset{x} + m, m, av1)
  {
    assert forall y :: (multiset{x} + m)[y] == multiset{x}[y] + m[y];
  }

  // Growing a new root around the two halves of the old one.
  lemma NewRoot(b1: map<Sector, Block>, av1: set<Sector>, t: Tree, e: Entry, h: nat, m: int, c: nat, av: set<Sector>,
                l: Tree, up: Bubble, r: Tree, root: Sector)
    requires Grown(b1, av1, t, e, h, m, c, av, l, up, r) && up.Active() && 1 <= c
    requires Sorted(Ins(Flat(t), e)) && Above(Ins(Flat(t), e), 0) && root != 0 && root in av1
    ensures var t' := Br(root, [up.entry], [l, r]);
      && Flat(t') == Ins(Flat(t), e)
      && Stored(b1[root := NodeB(Node([up.entry], [Root(l), Root(r)]))], av1 - {root}, t', h + 1, 1, c)
      && Within(Secs(t'), Secs(t), av) && Within(Secs(t'), Secs(l) + Secs(r), av1)
  {
    hide Ins, Lone, Within, Shape, Flat, Secs, Sorted, Above;
    var t' := Br(root, [up.entry], [l, r]);
    var b2 := b1[root := NodeB(Node([up.entry], [Root(l), Root(r)]))];
    RootParts(t', l, r);
    AddSector(Secs(l) + Secs(r), root, Secs(t), av1, av);
    RootShape(t', l, r, h, c);
    LoneNotIn(Secs(l) + Secs(r), root, av1);
    RepFrame(b1, b2, l);
    RepFrame(b1, b2, r);
    assert RepAll(b2, t'.ks);
  }

  lemma RootWeave(l: Tree, x: Entry, r: Tree)
    ensures Weave([x], [l, r]) == Flat(l) + [x] + Flat(r)
  {
    hide Flat;
    Join([], [l], x, [], [r]);
    assert [] + [x] + [] == [x] && [l] + [r] == [l, r];
  }

  lemma RootSecs(l: Tree, r: Tree)
    ensures SecsAll([l, r]) == Secs(l) + Secs(r)
  {
    hide Secs;
    SecsPair([], l, r, []);
    assert [] + [l] + [r] + [] == [l, r];
  }

  lemma RootParts(t: Tree, l: Tree, r: Tree)
    requires t.Br? && t.ks == [l, r] && |t.es| == 1
    ensures Flat(t) == Flat(l) + [t.es[0]] + Flat(r)
    ensures Secs(t) == multiset{t.sec} + (Secs(l) + Secs(r))
    ensures Roots(t.ks) == [Root(l), Root(r)]
  {
    RootWeave(l, t.es[0], r);
    assert t.es == [t.es[0]];
    RootSecs(l, r);
  }

  lemma RootShape(t: Tree, l: Tree, r: Tree, h: nat, c: nat)
    requires t.Br? && t.ks == [l, r] && |t.es| == 1 && 1 <= c && Shape(l, h, c / 2, c) && Shape(r, h, c / 2, c)
    ensures Shape(t, h + 1, 1, c)
  {
  }

  lemma WithinNotIn(m: multiset<Sector>, m0: multiset<Sector>, av: set<Sector>, x: Sector)
    requires Within(m, m0, av) && x !in m0 && x !in av
    ensures x !in m
  {
  }

  lemma LoneNotIn(m: multiset<Sector>, x: Sector, av: set<Sector>)
    requires Lone(m, av) && x in av
    ensures x !in m
  {
  }

  // The inode blocks behind a list of entries: distinct, decoded, and clear of tree and free space.
  ghost predicate Homes(b: map<Sector, Block>, s: seq<Entry>, m: multiset<Sector>, av: set<Sector>) {
    && (forall i :: 0 <= i < |s| ==> HomeAt(b, s[i].offset, m, av))
    && (forall i, j :: 0 <= i < j < |s| ==> s[i].offset != s[j].offset)
  }

  ghost predicate HomeAt(b: map<Sector, Block>, x: Sector, m: multiset<Sector>, av: set<Sector>) {
    x != 0 && x in b && b[x].InodeB? && x !in m && x !in av
  }

  // The inode index as a map.
  ghost function Inodes(b: map<Sector, Block>, s: seq<Entry>): map<nat, Inode> {
    map k | k in ToMap(s) && ToMap(s)[k] in b && b[ToMap(s)[k]].InodeB? :: b[ToMap(s)[k]].inode
  }

  // The index after an insertion: every old inode block is where and what it was.
  lemma HomesIns(b: map<Sector, Block>, b1: map<Sector, Block>, s: seq<Entry>, m: multiset<Sector>, av: set<Sector>,
                 m1: multiset<Sector>, av1: set<Sector>, e: Entry, inode: Inode)
    requires Homes(b, s, m, av) && SameOff(b, b1, m, av) && Within(m1, m, av) && av1 <= av
    requires e.offset != 0 && e.offset in av && e.offset !in av1 && e.offset !in m1
    requires e.offset in b1 && b1[e.offset] == InodeB(inode)
    ensures Homes(b1, Ins(s, e), m1, av1)
  {
    var t, r := Ins(s, e), Rank(s, e.id);
    forall i | 0 <= i < |t| ensures HomeAt(b1, t[i].offset, m1, av1) {
      if i < r {
        assert HomeAt(b, s[i].offset, m, av);
      } else if i > r {
        assert HomeAt(b, s[i - 1].offset, m, av);
      }
    }
    forall i, j | 0 <= i < j < |t| ensures t[i].offset != t[j].offset {
      if i < r { assert HomeAt(b, s[i].offset, m, av); }
      if j > r { assert HomeAt(b, s[j - 1].offset, m, av); }
    }
  }

  lemma InodesIns(b: map<Sector, Block>, b1: map<Sector, Block>, s: seq<Entry>, m: multiset<Sector>, av: set<Sector>,
                  e: Entry, inode: Inode)
    requires Homes(b, s, m, av) && SameOff(b, b1, m, av) && !Has(s, e.id)
    requires e.offset in b1 && b1[e.offset] == InodeB(inode)
    ensures Inodes(b1, Ins(s, e)) == Inodes(b, s)[e.id := inode]
  {
    InsIsMapInsert(s, e);
    var n, n1 := ToMap(s), ToMap(Ins(s, e));
    forall k | k in n ensures n[k] in b && b[n[k]].InodeB? && n[k] in b1 && b1[n[k]] == b[n[k]] {
      var i := MapOrigin(s, k);
      assert HomeAt(b, s[i].offset, m, av);
    }
  }

  // Node sectors hold node blocks, so nothing written elsewhere can touch the tree.
  lemma {:induction false} RepTagged(b: map<Sector, Block>, t: Tree)
    requires Rep(b, t)
    ensures forall x :: x in Secs(t) ==> x in b && b[x].NodeB? && x != 0
    decreases t, 0
  {
    if t.Br? {
      RepAllTagged(b, t.ks);
    }
  }

  lemma {:induction false} RepAllTagged(b: map<Sector, Block>, ks: seq<Tree>)
    requires RepAll(b, ks)
    ensures forall x :: x in SecsAll(ks) ==> x in b && b[x].NodeB? && x != 0
    decreases ks, 1
  {
    if |ks| > 0 {
      RepTagged(b, ks[0]);
      RepAllTagged(b, ks[1..]);
    }
  }

  // Only raw sectors were written.
  ghost predicate RawOnly(b: map<Sector, Block>, b': map<Sector, Block>) {
    forall x :: x in b && !b[x].Raw? ==> x in b' && b'[x] == b[x]
  }

  lemma TreeAside(b: map<Sector, Block>, b': map<Sector, Block>, av: set<Sector>, av': set<Sector>, t: Tree, h: nat,
                  m: int, c: nat)
    requires Stored(b, av, t, h, m, c) && Homes(b, Flat(t), Secs(t), av) && RawOnly(b, b') && av' <= av
    ensures Stored(b', av', t, h, m, c) && Homes(b', Flat(t), Secs(t), av') && Inodes(b', Flat(t)) == Inodes(b, Flat(t))
  {
    hide Flat, Secs, Sorted, Above, Shape, Rep;
    RepTagged(b, t);
    RepFrame(b, b', t);
    HomesAside(b, b', av, av', Flat(t), Secs(t));
  }

  lemma HomesAside(b: map<Sector, Block>, b': map<Sector, Block>, av: set<Sector>, av': set<Sector>, s: seq<Entry>,
                   m: multiset<Sector>)
    requires Homes(b, s, m, av) && RawOnly(b, b') && av' <= av
    ensures Homes(b', s, m, av') && Inodes(b', s) == Inodes(b, s)
  {
    forall i | 0 <= i < |s| ensures HomeAt(b', s[i].offset, m, av') && b'[s[i].offset] == b[s[i].offset] {
      assert HomeAt(b, s[i].offset, m, av);
    }
    forall k | k in ToMap(s) ensures ToMap(s)[k] in b && ToMap(s)[k] in b' && b'[ToMap(s)[k]] == b[ToMap(s)[k]] {
      var i := MapOrigin(s, k);
      assert HomeAt(b, s[i].offset, m, av);
    }
  }
}
