// How high the index can be, and what an insertion can cost.

module Costs {
  import opened Entries
  import opened Disks
  import opened Words
  import opened Trees
  import opened Layouts
  import opened BTrees

  function Pow(b: nat, e: nat): nat {
    if e == 0 then 1 else b * Pow(b, e - 1)
  }

  // A node over children with at least p - 1 entries each.
  lemma {:induction false} WeaveSize(es: seq<Entry>, ks: seq<Tree>, p: nat)
    requires |ks| == |es| + 1
    requires forall i :: 0 <= i < |ks| ==> |Flat(ks[i])| + 1 >= p
    ensures |Weave(es, ks)| + 1 >= |ks| * p
  {
    if |es| > 0 {
      WeaveSize(es[1..], ks[1..], p);
      assert |ks| * p == p + (|ks| - 1) * p;
    }
  }

  lemma {:induction false} KidSize(t: Tree, h: nat, c: nat)
    requires Shape(t, h, c / 2, c)
    ensures |Flat(t)| + 1 >= Pow(c / 2 + 1, h)
  {
    if h > 0 {
      var p := Pow(c / 2 + 1, h - 1);
      forall i | 0 <= i < |t.ks| ensures |Flat(t.ks[i])| + 1 >= p { KidSize(t.ks[i], h - 1, c); }
      WeaveSize(t.es, t.ks, p);
      MulLe(c / 2 + 1, |t.ks|, p);
    }
  }

  // A non-empty tree of height h holds at least 2 * (c/2 + 1)^(h-1) - 1 entries.
  lemma TreeSize(t: Tree, h: nat, c: nat)
    requires Shape(t, h, 1, c) && h > 0
    ensures |Flat(t)| >= 2 * Pow(c / 2 + 1, h - 1) - 1
  {
    var p := Pow(c / 2 + 1, h - 1);
    forall i | 0 <= i < |t.ks| ensures |Flat(t.ks[i])| + 1 >= p { KidSize(t.ks[i], h - 1, c); }
    WeaveSize(t.es, t.ks, p);
    MulLe(2, |t.ks|, p);
  }

  lemma {:induction false} MapSize(s: seq<Entry>)
    requires Sorted(s)
    ensures |ToMap(s)| == |s|
  {
    if |s| > 0 {
      SortedAppend([s[0]], s[1..]);
      assert s == [s[0]] + s[1..];
      MapSize(s[1..]);
      MapKeys(s[1..], s[0].id);
      var m := ToMap(s[1..]);
      assert ToMap(s).Keys == {s[0].id} + m.Keys;
      assert |ToMap(s).Keys| == 1 + |m.Keys|;
    }
  }

  lemma InodesSize(b: map<Sector, Block>, s: seq<Entry>, m: multiset<Sector>, av: set<Sector>)
    requires Sorted(s) && Homes(b, s, m, av)
    ensures |Inodes(b, s)| == |s|
  {
    MapSize(s);
    forall k | k in ToMap(s) ensures k in Inodes(b, s) {
      MapKeys(s, k);
      InodesKey(b, s, m, av, k);
    }
    assert Inodes(b, s).Keys == ToMap(s).Keys;
    assert |Inodes(b, s)| == |Inodes(b, s).Keys| && |ToMap(s)| == |ToMap(s).Keys|;
  }

  // Lookup is logarithmic: the height, which bounds the nodes read, is bounded by the index size.
  lemma HeightBound(tree: BTree)
    requires tree.Valid() && tree.height > 0
    ensures 2 * Pow(tree.c / 2 + 1, tree.height - 1) - 1 <= |tree.Index()|
  {
    TreeSize(tree.tree, tree.height, tree.c);
    InodesSize(tree.disk.blocks, Flat(tree.tree), Secs(tree.tree), tree.free.Avail());
  }

  // Splits climb the search path, so a fresh key takes at most height + 2 sectors; it takes that
  // many exactly when every node on the path is full.
  lemma {:induction false} SplitsBound(t: Tree, h: nat, m: int, c: nat, k: nat)
    requires Shape(t, h, m, c)
    ensures Splits(t, k, c) <= h && (Bubbles(t, k, c) <==> Splits(t, k, c) == h)
  {
    if h > 0 {
      var i := Rank(t.es, k);
      SplitsBound(t.ks[i], h - 1, c / 2, c, k);
    }
  }

  lemma NeededBound(t: Tree, h: nat, m: int, c: nat, k: nat)
    requires Shape(t, h, m, c)
    ensures 1 <= Needed(t, k, c) <= h + 2
    ensures Needed(t, k, c) == h + 2 <==> Bubbles(t, k, c)
  {
    SplitsBound(t, h, m, c, k);
  }
}
