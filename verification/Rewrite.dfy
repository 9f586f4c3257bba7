// Which nodes a removal rewrites and when it leaves a node short (btree_remove.c), read off the
// tree before it.

module Rewrites {
  import opened Entries
  import opened Disks
  import opened Trees
  import opened Shrinks

  // What is taken out of a subtree: a key, or its greatest or least entry.
  datatype Aim = Key(k: nat) | Greatest | Least

  ghost predicate Inner(t: Tree) {
    Branching(t) && |t.es| > 0 && t.ks[0].Br?
  }

  // The key is an entry of the node itself.
  ghost predicate Hits(t: Tree, aim: Aim)
    requires t.Br?
  {
    aim.Key? && Rank(t.es, aim.k) < |t.es| && t.es[Rank(t.es, aim.k)].id == aim.k
  }

  // The child the removal goes on in, and what it takes there: for an entry of the node itself its
  // predecessor.
  ghost function Turn(t: Tree, aim: Aim): (i: nat)
    requires Branching(t)
    ensures i < |t.ks|
  {
    match aim
    case Key(k) => Rank(t.es, k)
    case Greatest => |t.es|
    case Least => 0
  }

  ghost function Next(t: Tree, aim: Aim): Aim
    requires t.Br?
  {
    if Hits(t, aim) then Greatest else aim
  }

  // The sibling a child is balanced with: the right one, or the left one of the last child.
  function Partner(t: Tree, i: nat): (j: nat)
    requires t.Br? && |t.es| > 0
  {
    if i < |t.es| then i + 1 else |t.es| - 1
  }

  function Held(t: Tree): nat {
    if t.Br? then |t.es| else 0
  }

  // Child i holds the minimum, so it is short once it has lost an entry; its sibling has none to
  // spare.
  ghost predicate Lean(t: Tree, c: nat) {
    Held(t) <= c / 2
  }

  // Whether the removal leaves the subtree short: a leaf with fewer than c / 2 entries, or an inner
  // node that lost an entry because two of its children were merged.
  ghost predicate Short(t: Tree, aim: Aim, c: nat)
    decreases t
  {
    t.Br? &&
    if !Inner(t) then |t.es| - 1 < c / 2
    else
      var i := Turn(t, aim);
      var j := Partner(t, i);
      Short(t.ks[i], Next(t, aim), c) && Lean(t.ks[i], c) && Lean(t.ks[j], c)
  }

  // The nodes it rewrites: the leaf; the node that held the key; and, where a child was left short,
  // that child, the sibling it is balanced with and their parent.
  ghost function Rewritten(t: Tree, aim: Aim, c: nat): set<Sector>
    decreases t
  {
    if t.Nil? then {}
    else if !Inner(t) then {t.sec}
    else
      var i := Turn(t, aim);
      var j := Partner(t, i);
      Rewritten(t.ks[i], Next(t, aim), c)
      + (if Hits(t, aim) then {t.sec} else {})
      + (if Short(t.ks[i], Next(t, aim), c) && (Lean(t.ks[i], c) || !Lean(t.ks[j], c))
         then {t.sec, Root(t.ks[i]), Root(t.ks[j])} else {})
  }

  // The leaf that gives up an entry.
  ghost function Donor(t: Tree, aim: Aim): Tree
    decreases t
  {
    if t.Nil? || !Inner(t) then t else Donor(t.ks[Turn(t, aim)], Next(t, aim))
  }

  // The inner node that holds the key, if any.
  ghost function Holder(t: Tree, aim: Aim): set<Sector>
    decreases t
  {
    if t.Nil? || !Inner(t) then {}
    else if Hits(t, aim) then {t.sec}
    else Holder(t.ks[Turn(t, aim)], aim)
  }

  // A removal whose leaf keeps at least c / 2 entries rewrites that leaf and the node that held the
  // key, and no other.
  lemma {:induction false} LeafAlone(t: Tree, aim: Aim, c: nat)
    requires Held(Donor(t, aim)) > c / 2
    ensures !Short(t, aim, c) && Rewritten(t, aim, c) == {Root(Donor(t, aim))} + Holder(t, aim)
    decreases t
  {
    if Inner(t) {
      var kid := t.ks[Turn(t, aim)];
      LeafAlone(kid, Next(t, aim), c);
      if Hits(t, aim) { NoHolder(kid, Greatest); }
    }
  }

  lemma {:induction false} NoHolder(t: Tree, aim: Aim)
    requires !aim.Key?
    ensures Holder(t, aim) == {}
    decreases t
  {
    if t.Br? && Inner(t) { NoHolder(t.ks[Turn(t, aim)], aim); }
  }

  // It never rewrites more than two nodes a level, and one at the root.
  lemma {:induction false} FewRewritten(t: Tree, aim: Aim, h: nat, m: int, c: nat)
    requires Shape(t, h, m, c) && h > 0 && m >= 0 && c >= 2
    ensures |Rewritten(t, aim, c)| <= 2 * h - 1
    ensures Short(t, aim, c) ==> t.sec in Rewritten(t, aim, c)
    decreases h
  {
    if Inner(t) {
      var i := Turn(t, aim);
      var j := Partner(t, i);
      var kid := t.ks[i];
      assert ShapeAll(t.ks, h - 1, c) && Shape(t.ks[0], h - 1, c / 2, c) && Shape(kid, h - 1, c / 2, c);
      var w, x := Rewritten(kid, Next(t, aim), c), {t.sec, Root(t.ks[j])};
      FewRewritten(kid, Next(t, aim), h - 1, c / 2, c);
      TwoMore(w, t.sec, Root(t.ks[j]));
      SubsetSize(w + x, Rewritten(t, aim, c));
    }
  }

  lemma TwoMore(w: set<Sector>, x: Sector, y: Sector)
    ensures |w + {x, y}| <= |w| + 2
  {
    assert w + {x, y} == w + ({x, y} - w);
    if x == y { assert {x, y} == {x}; }
  }

  lemma {:induction false} SubsetSize(w: set<Sector>, v: set<Sector>)
    requires v <= w
    ensures |v| <= |w|
  {
    if v != {} {
      var x :| x in v;
      SubsetSize(w - {x}, v - {x});
    }
  }
}
