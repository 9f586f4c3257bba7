// One index node held in a fixed-size buffer (btree.c, struct spfs_bnode).

module BNodes {
  import opened Entries
  import opened Disks

  // A node with an entry and its greater child put in at rank r, and at the rank of the entry.
  ghost function NodePut(n: Node, r: nat, e: Entry, gt: Sector): (t: Node)
    requires r <= |n.es| && |n.ch| == |n.es| + 1
    ensures |t.es| == |n.es| + 1 && |t.ch| == |t.es| + 1 && t.ch[0] == n.ch[0]
  {
    Node(Put(n.es, r, e), Put(n.ch, r + 1, gt))
  }

  ghost function NodeIns(n: Node, e: Entry, gt: Sector): (t: Node)
    requires |n.ch| == |n.es| + 1
    ensures |t.es| == |n.es| + 1 && |t.ch| == |t.es| + 1 && t.ch[0] == n.ch[0]
  {
    NodePut(n, Rank(n.es, e.id), e, gt)
  }

  lemma InsEmpty(less: Sector, e: Entry, gt: Sector)
    ensures NodeIns(Node([], [less]), e, gt) == Node([e], [less, gt])
  {
  }

  lemma Shifted<T>(s: seq<T>, t: seq<T>, idx: nat, x: T)
    requires idx <= |s| && |t| == |s| + 1
    requires forall j :: 0 <= j < idx ==> t[j] == s[j]
    requires t[idx] == x
    requires forall j :: idx <= j < |s| ==> t[j + 1] == s[j]
    ensures t == Put(s, idx, x)
  {
    assert forall j :: idx < j < |t| ==> t[j] == s[(j - 1)] by {
      forall j | idx < j < |t| ensures t[j] == s[j - 1] { assert t[(j - 1) + 1] == s[j - 1]; }
    }
  }

  // The first k entries of a node with their children, and entries k to i with the children
  // after them, child 0 still unset.
  ghost function Cut(n: Node, k: nat): (t: Node)
    requires k <= |n.es| && |n.ch| == |n.es| + 1
    ensures |t.es| == k && |t.ch| == k + 1
  {
    Node(n.es[..k], n.ch[..k + 1])
  }

  ghost function Tail(n: Node, k: nat, i: nat): (t: Node)
    requires k <= i <= |n.es| && |n.ch| == |n.es| + 1
    ensures |t.es| == i - k && |t.ch| == |t.es| + 1 && t.ch[0] == 0
  {
    Node(n.es[k..i], [0] + n.ch[k + 1..i + 1])
  }

  lemma TailGrows(n: Node, k: nat, i: nat)
    requires k <= i < |n.es| && |n.ch| == |n.es| + 1 && Sorted(n.es)
    ensures Tail(n, k, i + 1) == Node(Tail(n, k, i).es + [n.es[i]], Tail(n, k, i).ch + [n.ch[i + 1]])
    ensures Sorted(Tail(n, k, i).es) && Below(Tail(n, k, i).es, n.es[i].id)
  {
  }

  lemma ShiftedDown<T>(s: seq<T>, t: seq<T>, idx: nat)
    requires idx < |s| && |t| == |s| - 1
    requires forall j :: 0 <= j < idx ==> t[j] == s[j]
    requires forall j :: idx <= j < |t| ==> t[j] == s[j + 1]
    ensures t == Without(s, idx)
  {
  }

  class BNode {
    const c: nat
    var length: nat
    const entries: array<Entry>
    const children: array<Sector>

    ghost predicate Valid()
      reads this
    {
      entries.Length == c && children.Length == c + 1 && length <= c
    }

    function View(): (n: Node)
      reads this, entries, children
      requires Valid()
      ensures |n.es| == length && |n.ch| == |n.es| + 1
    {
      Node(entries[..length], children[..length + 1])
    }

    // bnode_make: a zeroed buffer.
    constructor Make(c: nat)
      ensures Valid() && fresh(entries) && fresh(children) && this.c == c
      ensures View() == Node([], [0])
    {
      this.c := c;
      length := 0;
      entries := new Entry[c](_ => Entry(0, 0));
      children := new Sector[c + 1](_ => 0);
    }

    // bnode_parse: the fields of a stored node.
    constructor Parse(c: nat, n: Node)
      requires |n.es| <= c && |n.ch| == |n.es| + 1
      ensures Valid() && fresh(entries) && fresh(children) && this.c == c
      ensures View() == n
    {
      this.c := c;
      length := |n.es|;
      entries := new Entry[c](i => if 0 <= i < |n.es| then n.es[i] else Entry(0, 0));
      children := new Sector[c + 1](i => if 0 <= i < |n.ch| then n.ch[i] else 0);
    }

    method GetEntry(i: nat) returns (e: Entry)
      requires Valid() && i < length
      ensures e == View().es[i]
    {
      e := entries[i];
    }

    method GetChild(i: nat) returns (child: Sector)
      requires Valid() && i <= length
      ensures child == View().ch[i]
    {
      child := children[i];
    }

    // The first entry not below the needle; the length stands for NULL.
    method BinFindGte(needle: nat) returns (r: nat)
      requires Valid() && Sorted(View().es)
      ensures r == Rank(View().es, needle)
    {
      ghost var es := View().es;
      if length == 0 {
        return 0;
      }
      var it, last := 0, length;
      while true
        invariant 0 <= it <= last <= length
        invariant it == last ==> last < length && es[last].id > needle && it == 0
        invariant last < length ==> es[last].id > needle
        invariant it > 0 ==> es[it].id < needle
        decreases last - it
      {
        var n := last - it;
        var mid := it + n / 2;
        assert entries[mid] == es[mid];
        if entries[mid].id > needle {
          if n == 0 {
            RankIs(es, needle, mid);
            return mid;
          }
          last := mid;
        } else {
          if entries[mid].id == needle {
            RankIs(es, needle, mid);
            return mid;
          }
          if n == 1 {
            RankIs(es, needle, it + 1);
            return it + 1;
          }
          it := mid;
        }
      }
    }

    // memmove up by one, then store the entry at i and its child at j.
    method ShiftIn(i: nat, j: nat, e: Entry, child: Sector)
      requires Valid() && i <= length < c && j <= length + 1
      modifies this`length, entries, children
      ensures Valid() && length == old(length) + 1
      ensures View() == Node(Put(old(View()).es, i, e), Put(old(View()).ch, j, child))
    {
      ghost var es, ch := entries[..length], children[..length + 1];
      forall k | i <= k < length { entries[k + 1] := entries[k]; }
      entries[i] := e;
      forall k | j <= k <= length { children[k + 1] := children[k]; }
      children[j] := child;
      length := length + 1;
      Shifted(es, entries[..length], i, e);
      Shifted(ch, children[..length + 1], j, child);
    }

    // bnode_bin_insert; NULL, and no change, when the node is full.
    method BinInsert(e: Entry, gt: Sector) returns (ok: bool)
      requires Valid() && Sorted(View().es) && !Has(View().es, e.id)
      modifies this, entries, children
      ensures Valid() && ok == (old(length) < c)
      ensures View() == if ok then NodeIns(old(View()), e, gt) else old(View())
    {
      if length == c {
        return false;
      }
      var idx := BinFindGte(e.id);
      ShiftIn(idx, idx + 1, e, gt);
      return true;
    }

    // Inserting an entry greater than all others puts it, and its child, last.
    method AppendGreatest(e: Entry, gt: Sector) returns (ok: bool)
      requires Valid() && Sorted(View().es) && Below(View().es, e.id)
      modifies this, entries, children
      ensures Valid() && ok == (old(length) < c)
      ensures View() == if ok then Node(old(View().es) + [e], old(View().ch) + [gt]) else old(View())
    {
      ghost var n := View();
      RankIs(n.es, e.id, length);
      ok := BinInsert(e, gt);
      assert n.es + [e] == Put(n.es, |n.es|, e) && n.ch + [gt] == Put(n.ch, |n.ch|, gt);
    }

    // is_leaf: no child sector at all.
    method IsLeaf() returns (leaf: bool)
      requires Valid()
      ensures leaf <==> forall i :: 0 <= i < |View().ch| ==> View().ch[i] == 0
    {
      for i := 0 to length + 1
        invariant forall j :: 0 <= j < i ==> children[j] == 0
      {
        if children[i] != 0 {
          assert View().ch[i] != 0;
          return false;
        }
      }
      return true;
    }

    method SetEntry(i: nat, e: Entry)
      requires Valid() && i < length
      modifies entries
      ensures Valid() && View() == Node(old(View()).es[i := e], old(View()).ch)
    {
      entries[i] := e;
    }

    // bnode_stable_take_elem with bnode_stable_remove_child: entry i and child j leave, the
    // others move up.
    method TakeAt(i: nat, j: nat) returns (e: Entry)
      requires Valid() && i < length && j <= length
      modifies this`length, entries, children
      ensures Valid() && length == old(length) - 1 && e == old(View()).es[i]
      ensures View() == Node(Without(old(View()).es, i), Without(old(View()).ch, j))
    {
      ghost var es, ch := entries[..length], children[..length + 1];
      e := entries[i];
      forall k | i <= k < length - 1 { entries[k] := entries[k + 1]; }
      forall k | j <= k < length { children[k] := children[k + 1]; }
      length := length - 1;
      ShiftedDown(es, entries[..length], i);
      ShiftedDown(ch, children[..length + 1], j);
    }

    // bnode_bin_insert of the removal code: the given child goes before the entry.
    method BinInsertLess(less: Sector, e: Entry) returns (ok: bool)
      requires Valid() && Sorted(View().es) && !Has(View().es, e.id)
      modifies this, entries, children
      ensures Valid() && ok == (old(length) < c)
      ensures ok ==> var r := Rank(old(View()).es, e.id);
        View() == Node(Put(old(View()).es, r, e), Put(old(View()).ch, r, less))
    {
      if length == c {
        return false;
      }
      var idx := BinFindGte(e.id);
      ShiftIn(idx, idx, e, less);
      return true;
    }

    // Steps 1 and 2 of a merge: the separator, then everything of the right node.
    method MergeIn(pivot: Entry, src: BNode) returns (ok: bool)
      requires Valid() && src.Valid() && this != src && entries != src.entries && children != src.children
      modifies this`length, entries, children
      ensures Valid() && ok == (old(length) + 1 + src.length <= c)
      ensures ok ==> View() == Node(old(View()).es + [pivot] + src.View().es, old(View()).ch + src.View().ch)
      ensures !ok ==> View() == old(View())
    {
      if src.length + 1 > c - length {
        return false;
      }
      ghost var n, m := View(), src.View();
      entries[length] := pivot;
      forall i | 0 <= i < src.length { entries[length + 1 + i] := src.entries[i]; }
      forall i | 0 <= i <= src.length { children[length + 1 + i] := src.children[i]; }
      length := length + 1 + src.length;
      assert View().es == n.es + [pivot] + m.es;
      assert View().ch == n.ch + m.ch;
      return true;
    }

    // bnode_median of a full node and one extra entry: the index of an entry of the node, or
    // none when the extra entry is itself the median.
    method Median(extra: Entry) returns (inNode: bool, idx: nat)
      requires Valid() && length == c && 2 <= c
      requires Sorted(View().es) && !Has(View().es, extra.id)
      ensures var r, mid := Rank(View().es, extra.id), (c + 1) / 2;
        && inNode == (r != mid) && (inNode ==> idx == if r > mid then mid else mid - 1)
    {
      ghost var es := View().es;
      ghost var r := Rank(es, extra.id);
      HasRank(es, extra.id);
      var mid := (length + 1) / 2;
      assert es[mid] == entries[mid] && es[mid - 1] == entries[mid - 1];
      if extra.id > entries[mid].id {
        return true, mid;
      }
      if extra.id > entries[mid - 1].id {
        return false, 0;
      }
      return true, mid - 1;
    }

    // bnode_partition: everything above the pivot moves to the empty node on the right.
    method Partition(inNode: bool, idx: nat, pivot: Entry, to: BNode)
      requires Valid() && to.Valid() && this != to && entries != to.entries && children != to.children
      requires c == to.c && Sorted(View().es) && to.View() == Node([], [0])
      requires if inNode then idx < length else
        !Has(View().es, pivot.id) && Rank(View().es, pivot.id) < length
      modifies this`length, to, to.entries, to.children
      ensures Valid() && to.Valid()
      ensures var k := if inNode then idx + 1 else Rank(old(View()).es, pivot.id);
        && View() == Cut(old(View()), k)
        && to.View() == Tail(old(View()), k, old(length))
    {
      hide BNode.View, Cut, Tail, Rank, Sorted, Has;
      var drop;
      if inNode {
        drop := MoveFrom(idx + 1, to);
      } else {
        drop := MoveAbove(pivot, to);
      }
      Shorten(drop);
    }

    // bnode_set_length, downwards.
    method Shorten(drop: nat)
      requires Valid() && drop <= length
      modifies this`length
      ensures Valid() && length == old(length) - drop && View() == Cut(old(View()), length)
    {
      length := length - drop;
    }

    method MoveFrom(k: nat, to: BNode) returns (drop: nat)
      requires Valid() && to.Valid() && this != to && entries != to.entries && children != to.children
      requires c == to.c && Sorted(View().es) && to.View() == Node([], [0]) && k <= length
      modifies to, to.entries, to.children
      ensures to.Valid() && drop == length - k && to.View() == Tail(View(), k, length)
    {
      ghost var n := View();
      drop := 0;
      for i := k to length
        invariant to.Valid() && drop == i - k && to.View() == Tail(n, k, i)
      {
        TailGrows(n, k, i);
        var ok := to.AppendGreatest(entries[i], children[i + 1]);
        assert ok;
        drop := drop + 1;
      }
    }

    method MoveAbove(pivot: Entry, to: BNode) returns (drop: nat)
      requires Valid() && to.Valid() && this != to && entries != to.entries && children != to.children
      requires c == to.c && Sorted(View().es) && to.View() == Node([], [0])
      requires !Has(View().es, pivot.id)
      modifies to, to.entries, to.children
      ensures to.Valid() && drop == length - Rank(View().es, pivot.id)
      ensures to.View() == Tail(View(), Rank(View().es, pivot.id), length)
    {
      ghost var n := View();
      ghost var k := Rank(n.es, pivot.id);
      HasRank(n.es, pivot.id);
      drop := 0;
      var move := false;
      for i := 0 to length
        invariant to.Valid() && to.View() == Tail(n, k, if i < k then k else i)
        invariant drop == (if i < k then 0 else i - k) && move == (i > k)
      {
        assert entries[i] == n.es[i];
        if entries[i].id > pivot.id {
          TailGrows(n, k, i);
          var ok := to.AppendGreatest(entries[i], children[i + 1]);
          assert ok;
          move := true;
          drop := drop + 1;
        } else {
          assert !move;
        }
      }
    }

    method SetChild(i: nat, child: Sector)
      requires Valid() && i <= length
      modifies children
      ensures Valid() && View() == Node(old(View()).es, old(View()).ch[i := child])
    {
      children[i] := child;
    }

    // bnode_extract: the last entry leaves the node, its greater child leads the right node.
    method Extract(right: BNode) returns (e: Entry)
      requires Valid() && right.Valid() && this != right && children != right.children && length > 0
      requires right.length > 0 && right.View().ch[0] == 0
      modifies this`length, right.children
      ensures Valid() && right.Valid()
      ensures var n := old(View()); var last := |n.es| - 1;
        && e == n.es[last] && View() == Cut(n, last)
        && right.View() == Node(old(right.View()).es, old(right.View()).ch[0 := n.ch[last + 1]])
    {
      var idx := length - 1;
      e := entries[idx];
      var gt := children[idx + 1];
      length := length - 1;
      right.SetChild(0, gt);
    }
  }

  // Splitting exactly: the halves and the median of the node with the new entry in place.
  ghost function Half(full: Node, m: nat): (t: Node)
    requires m < |full.es| && |full.ch| == |full.es| + 1
    ensures |t.es| == |full.es| - m - 1 && |t.ch| == |t.es| + 1
  {
    Node(full.es[m + 1..], full.ch[m + 1..])
  }

  lemma PutHead<T>(s: seq<T>, r: nat, x: T, h: T)
    requires 0 < r <= |s|
    ensures Put(s, r, x)[0 := h] == Put(s[0 := h], r, x)
  {
  }

  lemma CutCut<T>(s: seq<T>, k: nat, m: nat)
    requires m <= k <= |s|
    ensures s[..k][..m] == s[..m]
  {
  }

  lemma SplitRightChildren(ch: seq<Sector>, r: nat, gt: Sector, m: nat)
    requires m + 1 < r <= |ch|
    ensures Put(ch, r, gt)[m + 1..] == Put([0] + ch[m + 2..], r - (m + 1), gt)[0 := ch[m + 1]]
  {
    PutCutBefore(ch, r, gt, m + 1);
    var t := [0] + ch[m + 2..];
    assert t[0 := ch[m + 1]] == ch[m + 1..];
    PutHead(t, r - (m + 1), gt, ch[m + 1]);
  }

  lemma TailAll(n: Node, k: nat)
    requires k <= |n.es| && |n.ch| == |n.es| + 1
    ensures Tail(n, k, |n.es|) == Node(n.es[k..], [0] + n.ch[k + 1..])
  {
  }

  lemma CutAgain(n: Node, k: nat, m: nat)
    requires |n.ch| == |n.es| + 1 && m <= k <= |n.es|
    ensures Cut(Cut(n, k), m) == Cut(n, m)
  {
    CutCut(n.es, k, m);
    CutCut(n.ch, k + 1, m + 1);
  }

  // The three ways btree_fixup reaches the two halves and the median: the new entry goes to the
  // right of the median, to its left, or is the median.
  lemma SplitRight(n: Node, r: nat, e: Entry, gt: Sector, m: nat)
    requires |n.ch| == |n.es| + 1 && m < r <= |n.es|
    ensures var t := NodePut(Tail(n, m + 1, |n.es|), r - (m + 1), e, gt);
      && Half(NodePut(n, r, e, gt), m) == Node(t.es, t.ch[0 := Cut(n, m + 1).ch[m + 1]])
      && Cut(Cut(n, m + 1), m) == Cut(NodePut(n, r, e, gt), m)
      && Cut(n, m + 1).es[m] == NodePut(n, r, e, gt).es[m]
  {
    CutAgain(n, m + 1, m);
    PutCutBefore(n.es, r, e, m);
    PutCutBefore(n.ch, r + 1, gt, m + 1);
    TailAll(n, m + 1);
    PutCutBefore(n.es, r, e, m + 1);
    SplitRightChildren(n.ch, r + 1, gt, m);
  }

  lemma SplitLeft(n: Node, r: nat, e: Entry, gt: Sector, m: nat)
    requires |n.ch| == |n.es| + 1 && r < m <= |n.es|
    ensures var full, l, t := NodePut(n, r, e, gt), NodePut(Cut(n, m), r, e, gt), Tail(n, m, |n.es|);
      && Cut(l, m) == Cut(full, m) && l.es[m] == full.es[m]
      && Half(full, m) == Node(t.es, t.ch[0 := l.ch[m + 1]])
  {
    PutCutAfter(n.es, r, e, m + 1);
    PutCutAfter(n.ch, r + 1, gt, m + 2);
    var full, l, t := NodePut(n, r, e, gt), NodePut(Cut(n, m), r, e, gt), Tail(n, m, |n.es|);
    assert l == Cut(full, m + 1);
    CutAgain(full, m + 1, m);
    TailAll(n, m);
    SplitLeftChildren(n.ch, r + 1, gt, m);
  }

  lemma SplitLeftChildren(ch: seq<Sector>, r: nat, gt: Sector, m: nat)
    requires r <= m < |ch|
    ensures ([0] + ch[m + 1..])[0 := Put(ch, r, gt)[m + 1]] == Put(ch, r, gt)[m + 1..]
  {
    PutCutAfter(ch, r, gt, m + 1);
    assert Put(ch, r, gt)[m + 1] == Put(ch, r, gt)[m + 1..][0];
    assert ([0] + ch[m + 1..])[0 := ch[m]] == ch[m..];
  }

  lemma SplitMiddle(n: Node, m: nat, e: Entry, gt: Sector)
    requires |n.ch| == |n.es| + 1 && m <= |n.es|
    ensures var full, t := NodePut(n, m, e, gt), Tail(n, m, |n.es|);
      && Cut(n, m) == Cut(full, m) && e == full.es[m]
      && Half(full, m) == Node(t.es, t.ch[0 := gt])
  {
    PutCutBefore(n.es, m, e, m);
    PutCutAfter(n.es, m, e, m + 1);
    PutCutBefore(n.ch, m + 1, gt, m + 1);
    TailAll(n, m);
    assert ([0] + n.ch[m + 1..])[0 := gt] == Put(n.ch, m + 1, gt)[m + 1..];
  }
}
