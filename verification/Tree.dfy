// The shape of the inode index as a value: what the node sectors on disk spell out.

module Trees {
  import opened Entries

  // Nil is child sector 0. A branch is a node sector with its entries and the trees
  // its child sectors name; leaves of the index are branches whose kids are all Nil.
  datatype Tree = Nil | Br(sec: Sector, es: seq<Entry>, ks: seq<Tree>)

  function Root(t: Tree): Sector {
    if t.Nil? then 0 else t.sec
  }

  function Roots(ks: seq<Tree>): (r: seq<Sector>)
    ensures |r| == |ks|
  {
    seq(|ks|, i requires 0 <= i < |ks| => Root(ks[i]))
  }

  // In-order contents.
  ghost function Flat(t: Tree): seq<Entry>
    decreases t, 0
  {
    match t
    case Nil => []
    case Br(_, es, ks) => Weave(es, ks)
  }

  ghost function Weave(es: seq<Entry>, ks: seq<Tree>): seq<Entry>
    decreases ks, 1
  {
    if |ks| == 0 then []
    else if |es| == 0 then Flat(ks[0])
    else Flat(ks[0]) + [es[0]] + Weave(es[1..], ks[1..])
  }

  // Node sectors, with multiplicity.
  ghost function Secs(t: Tree): multiset<Sector>
    decreases t, 0
  {
    match t
    case Nil => multiset{}
    case Br(sec, _, ks) => multiset{sec} + SecsAll(ks)
  }

  ghost function SecsAll(ks: seq<Tree>): multiset<Sector>
    decreases ks, 1
  {
    if |ks| == 0 then multiset{} else Secs(ks[0]) + SecsAll(ks[1..])
  }

  // A tree of height h in nodes of capacity c: every path has h nodes, every node has one
  // more child than entries, and every node but the root of the tree holds at least c/2
  // entries; the root holds at least m.
  ghost predicate Shape(t: Tree, h: nat, m: int, c: nat)
    decreases h, 0
  {
    if h == 0 then t.Nil? else
      && t.Br? && |t.ks| == |t.es| + 1 && m <= |t.es| <= c
      && ShapeAll(t.ks, h - 1, c)
  }

  ghost predicate ShapeAll(ks: seq<Tree>, h: nat, c: nat)
    decreases h, 1
  {
    forall i :: 0 <= i < |ks| ==> Shape(ks[i], h, c / 2, c)
  }

  // Two neighbouring subtrees around a separator read as one sequence.
  lemma {:induction false} Join(e1: seq<Entry>, k1: seq<Tree>, x: Entry, e2: seq<Entry>, k2: seq<Tree>)
    requires |k1| == |e1| + 1 && |k2| == |e2| + 1
    ensures Weave(e1 + [x] + e2, k1 + k2) == Weave(e1, k1) + [x] + Weave(e2, k2)
  {
    var es, ks := e1 + [x] + e2, k1 + k2;
    if |e1| == 0 {
      assert es[1..] == e2 && ks[1..] == k2;
    } else {
      assert es[1..] == e1[1..] + [x] + e2 && ks[1..] == k1[1..] + k2;
      Join(e1[1..], k1[1..], x, e2, k2);
      var a, b, c := Flat(k1[0]) + [e1[0]], Weave(e1[1..], k1[1..]), Weave(e2, k2);
      assert a + (b + [x] + c) == (a + b) + [x] + c;
    }
  }

  // What stands before and after child i in the contents of a node.
  ghost function Lft(es: seq<Entry>, ks: seq<Tree>, i: nat): seq<Entry>
    requires i <= |es| && |ks| == |es| + 1
  {
    if i == 0 then [] else Weave(es[..i - 1], ks[..i]) + [es[i - 1]]
  }

  ghost function Rgt(es: seq<Entry>, ks: seq<Tree>, i: nat): seq<Entry>
    requires i <= |es| && |ks| == |es| + 1
  {
    if i == |es| then [] else [es[i]] + Weave(es[i + 1..], ks[i + 1..])
  }

  lemma {:induction false} Focus(es: seq<Entry>, ks: seq<Tree>, i: nat)
    requires i <= |es| && |ks| == |es| + 1
    ensures Weave(es, ks) == Lft(es, ks, i) + Flat(ks[i]) + Rgt(es, ks, i)
  {
    hide Flat;
    FocusRight(es, ks, i);
    if i > 0 {
      assert es == es[..i - 1] + [es[i - 1]] + es[i..] && ks == ks[..i] + ks[i..];
      Join(es[..i - 1], ks[..i], es[i - 1], es[i..], ks[i..]);
      Assoc4(Weave(es[..i - 1], ks[..i]), [es[i - 1]], Flat(ks[i]), Rgt(es, ks, i));
    } else {
      assert es[0..] == es && ks[0..] == ks;
    }
  }

  lemma FocusRight(es: seq<Entry>, ks: seq<Tree>, i: nat)
    requires i <= |es| && |ks| == |es| + 1
    ensures Weave(es[i..], ks[i..]) == Flat(ks[i]) + Rgt(es, ks, i)
  {
    if i < |es| {
      assert es[i..][1..] == es[i + 1..] && ks[i..][1..] == ks[i + 1..];
    }
  }

  lemma Assoc4<T>(a: seq<T>, b: seq<T>, c: seq<T>, d: seq<T>)
    ensures a + b + (c + d) == (a + b) + c + d
  {
  }

  lemma {:induction false} SecsAppend(a: seq<Tree>, b: seq<Tree>)
    ensures SecsAll(a + b) == SecsAll(a) + SecsAll(b)
  {
    if |a| == 0 {
      assert a + b == b;
    } else {
      assert (a + b)[1..] == a[1..] + b;
      SecsAppend(a[1..], b);
    }
  }

  lemma SecsFocus(ks: seq<Tree>, i: nat)
    requires i < |ks|
    ensures SecsAll(ks) == SecsAll(ks[..i]) + Secs(ks[i]) + SecsAll(ks[i + 1..])
  {
    assert ks == ks[..i] + ks[i..];
    SecsAppend(ks[..i], ks[i..]);
    assert ks[i..][1..] == ks[i + 1..];
  }

  // Exchanging child i only exchanges its part of the contents.
  lemma ReplaceKid(es: seq<Entry>, ks: seq<Tree>, i: nat, k: Tree)
    requires i <= |es| && |ks| == |es| + 1
    ensures Weave(es, ks[i := k]) == Lft(es, ks, i) + Flat(k) + Rgt(es, ks, i)
    ensures SecsAll(ks[i := k]) == SecsAll(ks[..i]) + Secs(k) + SecsAll(ks[i + 1..])
  {
    var ks' := ks[i := k];
    Focus(es, ks', i);
    SecsFocus(ks', i);
    assert ks'[..i] == ks[..i] && ks'[i + 1..] == ks[i + 1..];
  }

  // Putting two subtrees and their separator in the place of child i.
  lemma InsertKid(es: seq<Entry>, ks: seq<Tree>, i: nat, l: Tree, x: Entry, r: Tree)
    requires i <= |es| && |ks| == |es| + 1
    ensures Weave(es[..i] + [x] + es[i..], ks[..i] + [l] + [r] + ks[i + 1..])
         == Lft(es, ks, i) + (Flat(l) + [x] + Flat(r)) + Rgt(es, ks, i)
    ensures SecsAll(ks[..i] + [l] + [r] + ks[i + 1..])
         == SecsAll(ks[..i]) + (Secs(l) + Secs(r)) + SecsAll(ks[i + 1..])
  {
    var e1, k1, e2, k2 := es[..i], ks[..i] + [l], es[i..], [r] + ks[i + 1..];
    Join(e1, k1, x, e2, k2);
    assert ks[..i] + [l] + [r] + ks[i + 1..] == k1 + k2;
    WeaveEnd(es, ks, i, l);
    WeaveStart(es, ks, i, r);
    SecsPair(ks[..i], l, r, ks[i + 1..]);
    Regroup(Lft(es, ks, i), Flat(l), [x], Flat(r), Rgt(es, ks, i));
  }

  lemma Regroup<T>(a: seq<T>, b: seq<T>, c: seq<T>, d: seq<T>, e: seq<T>)
    ensures (a + b) + c + (d + e) == a + (b + c + d) + e
  {
  }

  lemma WeaveEnd(es: seq<Entry>, ks: seq<Tree>, i: nat, l: Tree)
    requires i <= |es| && |ks| == |es| + 1
    ensures Weave(es[..i], ks[..i] + [l]) == Lft(es, ks, i) + Flat(l)
  {
    var e, k := es[..i], ks[..i] + [l];
    Focus(e, k, i);
    assert k[..i] == ks[..i];
    if i > 0 { assert e[..i - 1] == es[..i - 1]; }
  }

  lemma WeaveStart(es: seq<Entry>, ks: seq<Tree>, i: nat, r: Tree)
    requires i <= |es| && |ks| == |es| + 1
    ensures Weave(es[i..], [r] + ks[i + 1..]) == Flat(r) + Rgt(es, ks, i)
  {
    var k := [r] + ks[i + 1..];
    assert k[1..] == ks[i + 1..];
    if i < |es| { assert es[i..][1..] == es[i + 1..]; }
  }

  lemma SecsPair(a: seq<Tree>, l: Tree, r: Tree, b: seq<Tree>)
    ensures SecsAll(a + [l] + [r] + b) == SecsAll(a) + (Secs(l) + Secs(r)) + SecsAll(b)
  {
    hide Secs;
    SecsAppend(a + [l] + [r], b);
    SecsAppend(a + [l], [r]);
    SecsAppend(a, [l]);
    assert SecsAll([l]) == Secs(l) + SecsAll([l][1..]);
    assert SecsAll([r]) == Secs(r) + SecsAll([r][1..]);
  }

  // The entries of a node are themselves in order.
  lemma {:induction false} EntriesAbove(es: seq<Entry>, ks: seq<Tree>, k: nat)
    requires |ks| == |es| + 1 && Above(Weave(es, ks), k)
    ensures Above(es, k)
  {
    if |es| > 0 {
      var f := Flat(ks[0]);
      var w, rest := Weave(es, ks), Weave(es[1..], ks[1..]);
      assert w[|f|] == es[0];
      forall i | 0 <= i < |rest| ensures rest[i].id > k { assert w[|f| + 1 + i] == rest[i]; }
      EntriesAbove(es[1..], ks[1..], k);
      forall i | 0 <= i < |es| ensures es[i].id > k { if i > 0 { assert es[i] == es[1..][i - 1]; } }
    }
  }

  lemma {:induction false} EntriesBelow(es: seq<Entry>, ks: seq<Tree>, k: nat)
    requires |ks| == |es| + 1 && Below(Weave(es, ks), k)
    ensures Below(es, k)
  {
    forall i | 0 <= i < |es| ensures es[i].id < k {
      FocusEntry(es, ks, i);
      assert Weave(es, ks)[|Weave(es[..i], ks[..i + 1])|] == es[i];
    }
  }

  lemma {:induction false} EntriesSorted(es: seq<Entry>, ks: seq<Tree>)
    requires |ks| == |es| + 1 && Sorted(Weave(es, ks))
    ensures Sorted(es)
  {
    if |es| > 0 {
      SortedParts(Flat(ks[0]), es[0], Weave(es[1..], ks[1..]));
      EntriesAbove(es[1..], ks[1..], es[0].id);
      EntriesSorted(es[1..], ks[1..]);
      forall i, j | 0 <= i < j < |es| ensures es[i].id < es[j].id {
        assert es[j] == es[1..][j - 1];
        if i > 0 { assert es[i] == es[1..][i - 1]; }
      }
    }
  }

  // Binary search picks the only child that can hold k.
  lemma Descend(es: seq<Entry>, ks: seq<Tree>, k: nat)
    requires |ks| == |es| + 1 && Sorted(Weave(es, ks))
    requires var i := Rank(es, k); i < |es| ==> es[i].id != k
    ensures var i := Rank(es, k);
      Below(Lft(es, ks, i), k) && Above(Rgt(es, ks, i), k) && Sorted(Flat(ks[i]))
  {
    hide Weave, Flat, Sorted, Below, Above, Lft, Rgt;
    var i := Rank(es, k);
    var l, f, r := Lft(es, ks, i), Flat(ks[i]), Rgt(es, ks, i);
    Focus(es, ks, i);
    SortedAppend(l + f, r);
    SortedAppend(l, f);
    LftBelow(es, ks, i, k);
    RgtAbove(es, ks, i, k);
  }

  // What is left of a child ends with an entry, what is right of it begins with one.
  lemma LftBelow(es: seq<Entry>, ks: seq<Tree>, i: nat, k: nat)
    requires i <= |es| && |ks| == |es| + 1 && Sorted(Lft(es, ks, i)) && (i > 0 ==> es[i - 1].id < k)
    ensures Below(Lft(es, ks, i), k)
  {
    hide Weave;
    if i > 0 {
      var w := Weave(es[..i - 1], ks[..i]);
      assert w + [es[i - 1]] + [] == w + [es[i - 1]];
      SortedParts(w, es[i - 1], []);
    }
  }

  lemma RgtAbove(es: seq<Entry>, ks: seq<Tree>, i: nat, k: nat)
    requires i <= |es| && |ks| == |es| + 1 && Sorted(Rgt(es, ks, i)) && (i < |es| ==> es[i].id > k)
    ensures Above(Rgt(es, ks, i), k)
  {
    hide Weave;
    if i < |es| {
      var w := Weave(es[i + 1..], ks[i + 1..]);
      assert [] + [es[i]] + w == [es[i]] + w;
      SortedParts([], es[i], w);
    }
  }

  // An entry of the node, seen in the contents.
  lemma FocusEntry(es: seq<Entry>, ks: seq<Tree>, i: nat)
    requires i < |es| && |ks| == |es| + 1
    ensures Weave(es, ks) == Weave(es[..i], ks[..i + 1]) + [es[i]] + Weave(es[i + 1..], ks[i + 1..])
  {
    assert es == es[..i] + [es[i]] + es[i + 1..] && ks == ks[..i + 1] + ks[i + 1..];
    Join(es[..i], ks[..i + 1], es[i], es[i + 1..], ks[i + 1..]);
  }
}
