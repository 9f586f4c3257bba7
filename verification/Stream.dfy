// Writing and reading a stretch of bytes that is stored in pieces.

module Streams {
  import opened Disks
  import opened Words

  function Min(a: nat, b: nat): nat {
    if a > b then b else a
  }

  function Max(a: nat, b: nat): nat {
    if a > b then a else b
  }

  // Counting a position down through a piece of storage and writing what fits from there on:
  // the new piece, the position still to count down, the bytes still to write.
  datatype Poured = Poured(data: seq<Byte>, pos: nat, rest: seq<Byte>)

  ghost function Pour(d: seq<Byte>, p: nat, x: seq<Byte>): (r: Poured)
    ensures |r.data| == |d| && |r.rest| <= |x|
  {
    var skip := Min(p, |d|);
    var w := Min(|x|, |d| - skip);
    Poured(Splice(d, skip, x[..w]), p - skip, x[w..])
  }

  // The piece lies before the position, takes everything, or is filled to its end.
  lemma PourPast(d: seq<Byte>, p: nat, x: seq<Byte>)
    requires p >= |d|
    ensures Pour(d, p, x) == Poured(d, p - |d|, x)
  {
    assert x[..0] == [] && x[0..] == x && Splice(d, |d|, []) == d;
  }

  lemma PourInside(d: seq<Byte>, p: nat, x: seq<Byte>)
    requires p + |x| <= |d|
    ensures Pour(d, p, x) == Poured(Splice(d, p, x), 0, [])
  {
    hide Splice;
    assert x[..|x|] == x && x[|x|..] == [];
  }

  lemma PourOver(d: seq<Byte>, p: nat, x: seq<Byte>)
    requires p <= |d| <= p + |x|
    ensures Pour(d, p, x) == Poured(d[..p] + x[..|d| - p], 0, x[|d| - p..])
  {
    hide Splice;
    SpliceEnd(d, p, x[..|d| - p]);
  }

  lemma SpliceEnd(d: seq<Byte>, p: nat, y: seq<Byte>)
    requires p + |y| == |d|
    ensures Splice(d, p, y) == d[..p] + y
  {
    assert d[p + |y|..] == [];
  }

  // Two pieces in turn are as good as one.
  lemma PourAppend(d: seq<Byte>, e: seq<Byte>, p: nat, x: seq<Byte>)
    ensures var a := Pour(d, p, x); var b := Pour(e, a.pos, a.rest);
      Pour(d + e, p, x) == Poured(a.data + b.data, b.pos, b.rest)
  {
    hide Pour, Splice;
    if p >= |d| {
      PourPast(d, p, x);
      PourLater(d, e, p - |d|, x);
    } else if |x| <= |d| - p {
      PourInside(d, p, x);
      PourInside(d + e, p, x);
      PourInside(e, 0, []);
      SpliceFirst(d, e, p, x);
    } else {
      PourOver(d, p, x);
      PourAcross(d, e, p, x);
    }
  }

  lemma SpliceFirst(d: seq<Byte>, e: seq<Byte>, p: nat, x: seq<Byte>)
    requires p + |x| <= |d|
    ensures Splice(d + e, p, x) == Splice(d, p, x) + e && Splice(e, 0, []) == e
  {
  }

  lemma SpliceSecond(d: seq<Byte>, e: seq<Byte>, q: nat, x: seq<Byte>)
    requires q + |x| <= |e|
    ensures Splice(d + e, |d| + q, x) == d + Splice(e, q, x)
  {
  }

  lemma PourLater(d: seq<Byte>, e: seq<Byte>, q: nat, x: seq<Byte>)
    ensures var b := Pour(e, q, x);
      Pour(d + e, |d| + q, x) == Poured(d + b.data, b.pos, b.rest)
  {
    hide Splice;
    var skip := Min(q, |e|);
    SpliceSecond(d, e, skip, x[..Min(|x|, |e| - skip)]);
  }

  lemma PourAcross(d: seq<Byte>, e: seq<Byte>, p: nat, x: seq<Byte>)
    requires p <= |d| <= p + |x|
    ensures var k := |d| - p; var b := Pour(e, 0, x[k..]);
      Pour(d + e, p, x) == Poured((d[..p] + x[..k]) + b.data, b.pos, b.rest)
  {
    hide Pour, Splice;
    var k := |d| - p;
    var y := x[k..];
    if |y| <= |e| {
      PourInside(d + e, p, x);
      PourInside(e, 0, y);
      SpliceAcross(d, e, p, x);
    } else {
      PourOver(d + e, p, x);
      PourOver(e, 0, y);
      TakeTake(x, k, |e|);
      JoinFront(d, e, p, x[..k], y[..|e|]);
    }
  }

  lemma TakeTake<T>(x: seq<T>, k: nat, n: nat)
    requires k + n <= |x|
    ensures x[..k + n] == x[..k] + x[k..][..n] && x[k + n..] == x[k..][n..]
  {
  }

  lemma JoinFront<T>(d: seq<T>, e: seq<T>, p: nat, x: seq<T>, y: seq<T>)
    requires p <= |d|
    ensures (d + e)[..p] + (x + y) == (d[..p] + x) + (e[..0] + y)
  {
  }

  lemma SpliceAcross(d: seq<Byte>, e: seq<Byte>, p: nat, x: seq<Byte>)
    requires p <= |d| <= p + |x| <= |d| + |e|
    ensures Splice(d + e, p, x) == (d[..p] + x[..|d| - p]) + Splice(e, 0, x[|d| - p..])
  {
    var y := x[|d| - p..];
    assert x == x[..|d| - p] + y;
    assert (d + e)[..p] == d[..p] && (d + e)[p + |x|..] == e[|y|..];
    GroupFour(d[..p], x[..|d| - p], y, e[|y|..]);
    assert e[..0] == [];
  }

  lemma GroupFour<T>(a: seq<T>, b: seq<T>, c: seq<T>, d: seq<T>)
    ensures a + (b + c) + d == (a + b) + ([] + c + d)
  {
  }

  lemma TakeAcross<T>(a: seq<T>, z: seq<T>, n: nat)
    requires |a| <= n <= |a| + |z|
    ensures (a + z)[..n] == a + z[..n - |a|] && a[..|a|] == a
  {
  }

  // The same for reading: the bytes read, the position and the count left over.
  datatype Drained = Drained(out: seq<Byte>, pos: nat, left: nat)

  ghost function Drain(d: seq<Byte>, p: nat, n: nat): Drained {
    var skip := Min(p, |d|);
    var r := Min(n, |d| - skip);
    Drained(d[skip..skip + r], p - skip, n - r)
  }

  lemma DrainPast(d: seq<Byte>, p: nat, n: nat)
    requires p >= |d|
    ensures Drain(d, p, n) == Drained([], p - |d|, n)
  {
  }

  lemma DrainInside(d: seq<Byte>, p: nat, n: nat)
    requires p + n <= |d|
    ensures Drain(d, p, n) == Drained(d[p..p + n], 0, 0)
  {
  }

  lemma DrainOver(d: seq<Byte>, p: nat, n: nat)
    requires p <= |d| <= p + n
    ensures Drain(d, p, n) == Drained(d[p..], 0, n - (|d| - p))
  {
  }

  lemma DrainAppend(d: seq<Byte>, e: seq<Byte>, p: nat, n: nat)
    ensures var a := Drain(d, p, n); var b := Drain(e, a.pos, a.left);
      Drain(d + e, p, n) == Drained(a.out + b.out, b.pos, b.left)
  {
    hide Drain;
    if p >= |d| {
      DrainPast(d, p, n);
      DrainLater(d, e, p - |d|, n);
    } else if n <= |d| - p {
      DrainInside(d, p, n);
      DrainInside(d + e, p, n);
      DrainInside(e, 0, 0);
      assert (d + e)[p..p + n] == d[p..p + n] + e[0..0];
    } else {
      DrainOver(d, p, n);
      DrainAcross(d, e, p, n);
    }
  }

  lemma DrainLater(d: seq<Byte>, e: seq<Byte>, q: nat, n: nat)
    ensures var b := Drain(e, q, n);
      Drain(d + e, |d| + q, n) == Drained([] + b.out, b.pos, b.left)
  {
    var skip := Min(q, |e|);
    var r := Min(n, |e| - skip);
    assert (d + e)[|d| + skip..|d| + skip + r] == [] + e[skip..skip + r];
  }

  lemma DrainAcross(d: seq<Byte>, e: seq<Byte>, p: nat, n: nat)
    requires p <= |d| <= p + n
    ensures var b := Drain(e, 0, n - (|d| - p));
      Drain(d + e, p, n) == Drained(d[p..] + b.out, b.pos, b.left)
  {
    var r := Min(n - (|d| - p), |e|);
    assert (d + e)[p..|d| + r] == d[p..] + e[0..r];
  }

  // What POSIX write promises of a flat byte string, for a position inside it.
  ghost function Overwrite(s: seq<Byte>, p: nat, x: seq<Byte>): (t: seq<Byte>)
    requires p <= |s|
    ensures |t| == Max(|s|, p + |x|)
  {
    s[..p] + x + if p + |x| < |s| then s[p + |x|..] else []
  }

  // Pouring into storage whose front part is the string overwrites the string.
  lemma TakeSplice(d: seq<Byte>, size: nat, p: nat, x: seq<Byte>)
    requires p <= size <= |d| && p + |x| <= |d|
    ensures Splice(d, p, x)[..Max(size, p + |x|)] == Overwrite(d[..size], p, x)
  {
    var m := Max(size, p + |x|);
    assert d[..size][..p] == d[..p];
    TakeAcross(d[..p] + x, d[p + |x|..], m);
    if size > p + |x| {
      assert d[..size][p + |x|..] == d[p + |x|..][..size - (p + |x|)];
    } else {
      assert d[p + |x|..][..0] == [];
    }
  }

  lemma PourOverwrites(d: seq<Byte>, size: nat, p: nat, x: seq<Byte>)
    requires p <= size <= |d| && p + |x| <= |d|
    ensures var r := Pour(d, p, x);
      r.rest == [] && r.pos == 0 && r.data[..Max(size, p + |x|)] == Overwrite(d[..size], p, x)
  {
    hide Pour;
    PourInside(d, p, x);
    TakeSplice(d, size, p, x);
  }

  // Read undoes write, and bytes outside the written range keep their value.
  lemma ReadBack(s: seq<Byte>, p: nat, x: seq<Byte>)
    requires p <= |s|
    ensures Drain(Overwrite(s, p, x), p, |x|).out == x
    ensures forall i :: 0 <= i < |s| && (i < p || i >= p + |x|) ==> Overwrite(s, p, x)[i] == s[i]
  {
    var t := Overwrite(s, p, x);
    assert t[p..p + |x|] == x;
  }
}
