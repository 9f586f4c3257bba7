// Sorted sequences of tree entries: the reference meaning of every tree operation.

module Entries {
  type Sector = nat

  // struct spfs_bentry: an inode number and the sector of its inode block.
  datatype Entry = Entry(id: nat, offset: Sector)

  ghost predicate Sorted(s: seq<Entry>) {
    forall i, j :: 0 <= i < j < |s| ==> s[i].id < s[j].id
  }

  ghost predicate Below(s: seq<Entry>, k: nat) {
    forall i :: 0 <= i < |s| ==> s[i].id < k
  }

  ghost predicate Above(s: seq<Entry>, k: nat) {
    forall i :: 0 <= i < |s| ==> s[i].id > k
  }

  ghost predicate Has(s: seq<Entry>, k: nat) {
    exists i :: 0 <= i < |s| && s[i].id == k
  }

  // The number of leading entries below k.
  ghost function Rank(s: seq<Entry>, k: nat): (r: nat)
    ensures r <= |s| && forall i :: 0 <= i < r ==> s[i].id < k
    ensures r < |s| ==> s[r].id >= k
  {
    if |s| == 0 || s[0].id >= k then 0 else 1 + Rank(s[1..], k)
  }

  lemma {:induction false} RankIs(s: seq<Entry>, k: nat, r: nat)
    requires r <= |s| && forall i :: 0 <= i < r ==> s[i].id < k
    requires r < |s| ==> s[r].id >= k
    ensures Rank(s, k) == r
  {
    var q := Rank(s, k);
    assert forall i :: 0 <= i < q ==> s[i].id < k;
  }

  ghost function Put<T>(s: seq<T>, r: nat, x: T): (t: seq<T>)
    requires r <= |s|
    ensures |t| == |s| + 1
  {
    s[..r] + [x] + s[r..]
  }

  ghost function Ins(s: seq<Entry>, e: Entry): seq<Entry> {
    Put(s, Rank(s, e.id), e)
  }

  ghost function Without<T>(s: seq<T>, r: nat): (t: seq<T>)
    requires r < |s|
    ensures |t| == |s| - 1
  {
    s[..r] + s[r + 1..]
  }

  ghost function Rem(s: seq<Entry>, k: nat): seq<Entry> {
    var r := Rank(s, k);
    if r < |s| && s[r].id == k then Without(s, r) else s
  }

  // A cut at or before the new element falls into the old prefix, one after it into the old suffix.
  lemma PutCutBefore<T>(s: seq<T>, r: nat, x: T, k: nat)
    requires k <= r <= |s|
    ensures Put(s, r, x)[..k] == s[..k] && Put(s, r, x)[k..] == Put(s[k..], r - k, x)
  {
  }

  lemma PutCutAfter<T>(s: seq<T>, r: nat, x: T, k: nat)
    requires r < k <= |s| + 1
    ensures Put(s, r, x)[..k] == Put(s[..k - 1], r, x) && Put(s, r, x)[k..] == s[k - 1..]
  {
  }

  lemma HasRank(s: seq<Entry>, k: nat)
    requires Sorted(s)
    ensures Has(s, k) <==> Rank(s, k) < |s| && s[Rank(s, k)].id == k
  {
    if i :| 0 <= i < |s| && s[i].id == k {
      RankIs(s, k, i);
    }
  }

  lemma SliceMid<T>(a: seq<T>, m: seq<T>, b: seq<T>, q: nat)
    requires q <= |m|
    ensures (a + m + b)[..|a| + q] == a + m[..q]
    ensures (a + m + b)[|a| + q..] == m[q..] + b
  {
  }

  lemma Assoc5<T>(a: seq<T>, x: seq<T>, y: seq<T>, z: seq<T>, b: seq<T>)
    ensures (a + x) + y + (z + b) == a + (x + y + z) + b
  {
  }

  // Neighbours that lie outside the key do not take part.
  lemma RankMid(a: seq<Entry>, m: seq<Entry>, b: seq<Entry>, k: nat)
    requires Below(a, k) && Above(b, k)
    ensures Rank(a + m + b, k) == |a| + Rank(m, k)
  {
    RankIs(a + m + b, k, |a| + Rank(m, k));
  }

  lemma InsMid(a: seq<Entry>, m: seq<Entry>, b: seq<Entry>, e: Entry)
    requires Below(a, e.id) && Above(b, e.id)
    ensures Ins(a + m + b, e) == a + Ins(m, e) + b
  {
    RankMid(a, m, b, e.id);
    var q := Rank(m, e.id);
    SliceMid(a, m, b, q);
    Assoc5(a, m[..q], [e], m[q..], b);
  }

  lemma WithoutMid<T>(a: seq<T>, m: seq<T>, b: seq<T>, q: nat)
    requires q < |m|
    ensures Without(a + m + b, |a| + q) == a + Without(m, q) + b && (a + m + b)[|a| + q] == m[q]
  {
    SliceMid(a, m, b, q);
    SliceMid(a, m, b, q + 1);
  }

  lemma RemMid(a: seq<Entry>, m: seq<Entry>, b: seq<Entry>, k: nat)
    requires Below(a, k) && Above(b, k)
    ensures Rem(a + m + b, k) == a + Rem(m, k) + b
  {
    hide Rank, Below, Without;
    RankMid(a, m, b, k);
    var q := Rank(m, k);
    if q < |m| {
      WithoutMid(a, m, b, q);
    } else if |b| > 0 {
      assert (a + m + b)[|a| + q] == b[0];
    }
  }

  lemma InsSorted(s: seq<Entry>, e: Entry)
    requires Sorted(s) && !Has(s, e.id)
    ensures Sorted(Ins(s, e))
  {
    var r := Rank(s, e.id);
    var t := Ins(s, e);
    forall i, j | 0 <= i < j < |t| ensures t[i].id < t[j].id {
      if j > r { assert s[r].id <= s[j - 1].id && s[r].id != e.id; }
    }
  }

  lemma RemSorted(s: seq<Entry>, k: nat)
    requires Sorted(s)
    ensures Sorted(Rem(s, k))
  {
  }

  // A sorted sequence split at an element: everything left is smaller, everything right is greater.
  lemma SortedParts(a: seq<Entry>, x: Entry, b: seq<Entry>)
    requires Sorted(a + [x] + b)
    ensures Sorted(a) && Sorted(b) && Below(a, x.id) && Above(b, x.id)
  {
    var s := a + [x] + b;
    forall i | 0 <= i < |a| ensures a[i].id < x.id { assert s[i] == a[i] && s[|a|] == x; }
    forall i | 0 <= i < |b| ensures b[i].id > x.id { assert s[|a| + 1 + i] == b[i] && s[|a|] == x; }
    forall i, j | 0 <= i < j < |a| ensures a[i].id < a[j].id { assert s[i] == a[i] && s[j] == a[j]; }
    forall i, j | 0 <= i < j < |b| ensures b[i].id < b[j].id {
      assert s[|a| + 1 + i] == b[i] && s[|a| + 1 + j] == b[j];
    }
  }

  lemma SortedAppend(a: seq<Entry>, b: seq<Entry>)
    requires Sorted(a + b)
    ensures Sorted(a) && Sorted(b)
  {
    var s := a + b;
    forall i, j | 0 <= i < j < |a| ensures a[i].id < a[j].id { assert s[i] == a[i] && s[j] == a[j]; }
    forall i, j | 0 <= i < j < |b| ensures b[i].id < b[j].id {
      assert s[|a| + i] == b[i] && s[|a| + j] == b[j];
    }
  }

  // The abstract index: inode number to inode block.
  ghost function ToMap(s: seq<Entry>): map<nat, Sector> {
    if |s| == 0 then map[] else map[s[0].id := s[0].offset] + ToMap(s[1..])
  }

  lemma MapKeys(s: seq<Entry>, k: nat)
    ensures k in ToMap(s) <==> Has(s, k)
  {
    if |s| > 0 {
      MapKeys(s[1..], k);
      if i :| 0 <= i < |s| && s[i].id == k {
        if i > 0 { assert s[1..][i - 1].id == k; }
      }
      if i :| 0 <= i < |s[1..]| && s[1..][i].id == k {
        assert s[i + 1].id == k;
      }
    }
  }

  lemma {:induction false} MapOrigin(s: seq<Entry>, k: nat) returns (i: nat)
    requires k in ToMap(s)
    ensures i < |s| && s[i].id == k && s[i].offset == ToMap(s)[k]
  {
    if k in ToMap(s[1..]) {
      var j := MapOrigin(s[1..], k);
      i := j + 1;
    } else {
      i := 0;
    }
  }

  lemma {:induction false} MapOfAppend(a: seq<Entry>, b: seq<Entry>)
    ensures ToMap(a + b) == ToMap(a) + ToMap(b)
  {
    if |a| == 0 {
      assert a + b == b;
    } else {
      assert (a + b)[1..] == a[1..] + b;
      MapOfAppend(a[1..], b);
    }
  }

  lemma MapOfOne(x: Entry)
    ensures ToMap([x]) == map[x.id := x.offset]
  {
    assert [x][1..] == [] && ToMap([]) == map[];
  }

  lemma {:induction false} MapOfSplit(a: seq<Entry>, x: Entry, b: seq<Entry>)
    ensures ToMap(a + [x] + b) == ToMap(a) + map[x.id := x.offset] + ToMap(b)
  {
    hide ToMap;
    MapOfAppend(a + [x], b);
    MapOfAppend(a, [x]);
    MapOfOne(x);
  }

  // Every stored pair is in the map: with the keys sorted, no later entry hides an earlier one.
  lemma MapAt(s: seq<Entry>, i: nat)
    requires Sorted(s) && i < |s|
    ensures s[i].id in ToMap(s) && ToMap(s)[s[i].id] == s[i].offset
  {
    if i > 0 {
      MapAt(s[1..], i - 1);
    } else {
      MapKeys(s[1..], s[0].id);
    }
  }

  lemma MapOfPut(a: seq<Entry>, x: Entry, b: seq<Entry>)
    requires !Has(b, x.id)
    ensures ToMap(a + [x] + b) == ToMap(a + b)[x.id := x.offset]
  {
    MapOfSplit(a, x, b);
    MapOfAppend(a, b);
    MapKeys(b, x.id);
  }

  lemma InsIsMapInsert(s: seq<Entry>, e: Entry)
    requires !Has(s, e.id)
    ensures ToMap(Ins(s, e)) == ToMap(s)[e.id := e.offset]
  {
    var r := Rank(s, e.id);
    assert s == s[..r] + s[r..];
    assert forall i :: 0 <= i < |s[r..]| ==> s[r..][i] == s[r + i];
    MapOfPut(s[..r], e, s[r..]);
  }

  lemma RemOneFromMap(a: seq<Entry>, x: Entry, b: seq<Entry>)
    requires Below(a, x.id) && Above(b, x.id)
    ensures ToMap(a + b) == ToMap(a + [x] + b) - {x.id}
  {
    MapOfSplit(a, x, b);
    MapOfAppend(a, b);
    MapKeys(a, x.id);
    MapKeys(b, x.id);
  }

  lemma RemIsMapRemove(s: seq<Entry>, k: nat)
    requires Sorted(s)
    ensures ToMap(Rem(s, k)) == ToMap(s) - {k}
  {
    var r := Rank(s, k);
    HasRank(s, k);
    MapKeys(s, k);
    if r < |s| && s[r].id == k {
      assert s == s[..r] + [s[r]] + s[r + 1..];
      SortedParts(s[..r], s[r], s[r + 1..]);
      RemOneFromMap(s[..r], s[r], s[r + 1..]);
    }
  }
}
