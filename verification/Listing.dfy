// Listing a directory over any number of calls (spfs_iterate).

module Listings {
  import opened Disks
  import opened FreeLists
  import opened BTrees
  import opened Supers
  import opened Directories

  // What dir_emit is given.
  datatype Item = Dot | DotDot | Child(ino: nat)

  function Names(kids: seq<nat>): (s: seq<Item>)
    ensures |s| == |kids|
  {
    seq(|kids|, i requires 0 <= i < |kids| => Child(kids[i]))
  }

  function Items(kids: seq<nat>): (s: seq<Item>)
    ensures |s| == |kids| + 2
  {
    [Dot, DotDot] + Names(kids)
  }

  // The consumer decides from what it was given in this call whether it takes one item more.
  type Consumer = (seq<Item>, Item) -> bool

  // One call from position from on gives the items up to position to, each of which the consumer
  // took, and stops short of the end only where it refused.
  ghost predicate Round(items: seq<Item>, accept: Consumer, from: nat, out: seq<Item>, to: nat) {
    if from >= |items| then to == from && out == []
    else
      && from <= to <= |items| && out == items[from..to]
      && (forall i :: from <= i < to ==> accept(items[from..i], items[i]))
      && (to < |items| ==> !accept(out, items[to]))
  }

  // There is only one such outcome.
  lemma RoundOnce(items: seq<Item>, accept: Consumer, from: nat, out: seq<Item>, to: nat, out': seq<Item>, to': nat)
    requires Round(items, accept, from, out, to) && Round(items, accept, from, out', to')
    ensures to == to' && out == out'
  {
  }

  // struct spfs_iterate_ctx with the context's cursor and the items given so far.
  datatype Ctx = Ctx(pos: nat, at: nat, out: seq<Item>)

  // spfs_iterate_cb
  function IterateCb(accept: Consumer, ctx: Ctx, cur: Inode): (Ctx, bool) {
    if ctx.pos != ctx.at then (ctx.(pos := ctx.pos + 1), true)
    else if accept(ctx.out, Child(cur.ino)) then (Ctx(ctx.pos + 1, ctx.at + 1, ctx.out + [Child(cur.ino)]), true)
    else (ctx.(pos := ctx.pos + 1), false)
  }

  function Callback(accept: Consumer): (Ctx, Inode) -> (Ctx, bool) {
    (ctx: Ctx, cur: Inode) => IterateCb(accept, ctx, cur)
  }

  // What is left of a list of children when the walk over it ends with the state r.
  ghost predicate Goes(accept: Consumer, ctx: Ctx, kids: seq<nat>, r: Ctx)
    requires ctx.pos <= ctx.at
  {
    var n := ctx.at - ctx.pos;
    if n >= |kids| then r.at == ctx.at && r.out == ctx.out
    else
      && 0 <= r.at - ctx.at <= |kids| - n && r.out == ctx.out + Names(kids[n..n + (r.at - ctx.at)])
      && (forall j :: n <= j < n + (r.at - ctx.at) ==> accept(ctx.out + Names(kids[n..j]), Child(kids[j])))
      && (r.at - ctx.at < |kids| - n ==> !accept(r.out, Child(kids[n + (r.at - ctx.at)])))
  }

  // The children not yet counted past, seen by the callback.
  lemma {:induction false} WalkLists(accept: Consumer, ctx: Ctx, xs: seq<Inode>, kids: seq<nat>)
    requires |xs| == |kids| && forall i :: 0 <= i < |xs| ==> xs[i].ino == kids[i]
    requires ctx.pos <= ctx.at
    ensures Goes(accept, ctx, kids, Walk(Callback(accept), ctx, xs).0)
    decreases |xs|
  {
    hide Goes;
    if |xs| == 0 {
      GoesNowhere(accept, ctx, kids);
    } else {
      var (t, more) := IterateCb(accept, ctx, xs[0]);
      assert (t, more) == Callback(accept)(ctx, xs[0]);
      var r := Walk(Callback(accept), ctx, xs).0;
      if more {
        WalkLists(accept, t, xs[1..], kids[1..]);
        assert r == Walk(Callback(accept), t, xs[1..]).0;
        if ctx.pos < ctx.at { GoesOn(accept, ctx, t, kids, r); } else { GoesTaken(accept, ctx, t, kids, r); }
      } else {
        GoesRefused(accept, ctx, t, kids);
      }
    }
  }

  lemma GoesNowhere(accept: Consumer, ctx: Ctx, kids: seq<nat>)
    requires ctx.pos <= ctx.at && kids == []
    ensures Goes(accept, ctx, kids, ctx)
  {
  }

  lemma GoesOn(accept: Consumer, ctx: Ctx, t: Ctx, kids: seq<nat>, r: Ctx)
    requires ctx.pos < ctx.at && |kids| > 0 && t == ctx.(pos := ctx.pos + 1) && Goes(accept, t, kids[1..], r)
    ensures Goes(accept, ctx, kids, r)
  {
    var n := ctx.at - ctx.pos;
    if n < |kids| {
      SliceLater(kids, n, n + (r.at - ctx.at));
      forall j | n <= j < n + (r.at - ctx.at) ensures accept(ctx.out + Names(kids[n..j]), Child(kids[j])) {
        SliceLater(kids, n, j);
        assert accept(t.out + Names(kids[1..][n - 1..j - 1]), Child(kids[1..][j - 1]));
      }
    }
  }

  lemma GoesTaken(accept: Consumer, ctx: Ctx, t: Ctx, kids: seq<nat>, r: Ctx)
    requires ctx.pos == ctx.at && |kids| > 0 && t == Ctx(ctx.pos + 1, ctx.at + 1, ctx.out + [Child(kids[0])])
    requires accept(ctx.out, Child(kids[0])) && Goes(accept, t, kids[1..], r)
    ensures Goes(accept, ctx, kids, r)
  {
    hide Names;
    NoNames(ctx.out, kids);
    if |kids| > 1 {
      var d := r.at - ctx.at;
      NamesCons(kids, d);
      NamesLater(ctx.out, kids, d);
      forall j | 1 <= j < d ensures accept(ctx.out + Names(kids[0..j]), Child(kids[j])) {
        NamesCons(kids, j);
        NamesLater(ctx.out, kids, j);
        assert accept(t.out + Names(kids[1..][0..j - 1]), Child(kids[1..][j - 1]));
      }
    } else {
      OneName(kids);
    }
  }

  lemma NoNames(out: seq<Item>, kids: seq<nat>)
    ensures out + Names(kids[0..0]) == out
  {
  }

  lemma OneName(kids: seq<nat>)
    requires |kids| > 0
    ensures Names(kids[0..1]) == [Child(kids[0])]
  {
  }

  lemma GoesRefused(accept: Consumer, ctx: Ctx, t: Ctx, kids: seq<nat>)
    requires ctx.pos == ctx.at && |kids| > 0 && !accept(ctx.out, Child(kids[0])) && t == ctx.(pos := ctx.pos + 1)
    ensures Goes(accept, ctx, kids, t)
  {
    assert ctx.out + Names(kids[0..0]) == ctx.out;
  }

  lemma SliceLater(kids: seq<nat>, a: nat, b: nat)
    requires 0 < a <= b <= |kids|
    ensures kids[1..][a - 1..b - 1] == kids[a..b]
  {
  }

  lemma ItemsLater(kids: seq<nat>, a: nat, b: nat)
    requires 2 <= a <= b <= |kids| + 2
    ensures Items(kids)[a..b] == Names(kids[a - 2..b - 2])
  {
  }

  lemma NamesCons(kids: seq<nat>, d: nat)
    requires 0 < d <= |kids|
    ensures Names(kids[0..d]) == [Child(kids[0])] + Names(kids[1..][0..d - 1])
  {
  }

  lemma NamesLater(out: seq<Item>, kids: seq<nat>, d: nat)
    requires 0 < d <= |kids|
    ensures var rest := Names(kids[1..][0..d - 1]);
      (out + [Child(kids[0])]) + rest == out + ([Child(kids[0])] + rest)
  {
  }

  // dir_emit_dots
  method EmitDots(accept: Consumer, at: nat) returns (ok: bool, next: nat, out: seq<Item>)
    ensures at <= next && (at >= 2 ==> ok && next == at && out == [])
    ensures at < 2 ==> next <= 2 && out == [Dot, DotDot][at..next]
    ensures forall i :: at <= i < next ==> accept([Dot, DotDot][at..i], [Dot, DotDot][i])
    ensures ok <==> next >= 2
    ensures !ok ==> !accept(out, [Dot, DotDot][next])
  {
    assert [Dot, DotDot][0..0] == [] && [Dot, DotDot][0..1] == [Dot] && [Dot, DotDot][1..1] == [];
    next, out, ok := at, [], true;
    if next == 0 {
      if !accept(out, Dot) {
        return false, next, out;
      }
      next, out := 1, [Dot];
    }
    if next == 1 {
      if !accept(out, DotDot) {
        return false, next, out;
      }
      next, out := 2, out + [DotDot];
    }
  }

  // Every inode of the index carries its own number.
  ghost predicate Coherent(m: map<nat, Inode>) {
    forall k :: k in m ==> m[k].ino == k
  }

  // spfs_iterate
  method Iterate(sb: SuperBlock, dir: SpDirectory, accept: Consumer, from: nat)
    returns (ok: bool, to: nat, out: seq<Item>)
    requires sb.Valid() && dir.Valid(sb) && sb.disk.bs >= ROOMY
    requires Known(sb.tree.Index(), dir.Children()) && Coherent(sb.tree.Index())
    modifies sb.disk
    ensures sb.Valid() && dir.Valid(sb) && sb.disk.blocks == old(sb.disk.blocks)
    ensures sb.tree.Index() == old(sb.tree.Index())
    ensures Round(Items(dir.Children()), accept, from, out, to) && (ok <==> to >= 2)
  {
    hide FreeList.Avail, BTree.Valid, BTree.Index, SuperBlock.Valid, Walk, Kids, DirAt;
    var dots;
    ok, to, dots := EmitDots(accept, from);
    out := dots;
    ghost var kids := dir.Children();
    if !ok || to >= dir.capacity + 2 {
      RoundDots(accept, from, kids, out, to, ok, dir.capacity);
      return;
    }
    var res, ctx := dir.ForAllChildren(sb, Callback(accept), Ctx(2, to, out));
    WalkLists(accept, Ctx(2, to, out), Resolve(sb.tree.Index(), kids), kids);
    RoundJoin(accept, from, kids, dots, to, ctx);
    to, out := ctx.at, ctx.out;
  }

  lemma RoundDots(accept: Consumer, from: nat, kids: seq<nat>, out: seq<Item>, to: nat, ok: bool, capacity: nat)
    requires from <= to && (from >= 2 ==> to == from && out == [])
    requires (from < 2 ==> to <= 2 && out == [Dot, DotDot][from..to])
    requires forall i :: from <= i < to ==> i < 2 && accept([Dot, DotDot][from..i], [Dot, DotDot][i])
    requires (ok <==> to >= 2) && (!ok ==> !accept(out, [Dot, DotDot][to])) && (ok ==> to >= capacity + 2)
    requires |kids| <= capacity
    ensures Round(Items(kids), accept, from, out, to)
  {
    if from < 2 {
      assert forall i :: from <= i <= to ==> Items(kids)[from..i] == [Dot, DotDot][from..i];
    }
  }

  lemma RoundJoin(accept: Consumer, from: nat, kids: seq<nat>, dots: seq<Item>, at: nat, ctx: Ctx)
    requires from <= at && 2 <= at && (from >= 2 ==> at == from && dots == [])
    requires from < 2 ==> at == 2 && dots == [Dot, DotDot][from..2]
    requires forall i :: from <= i < at ==> i < 2 && accept([Dot, DotDot][from..i], [Dot, DotDot][i])
    requires Goes(accept, Ctx(2, at, dots), kids, ctx)
    ensures Round(Items(kids), accept, from, ctx.out, ctx.at) && ctx.at >= 2
  {
    hide Items, Names, Goes;
    var items := Items(kids);
    GoesIs(accept, Ctx(2, at, dots), kids, ctx);
    forall i | from <= i <= at && i <= 2
      ensures items[from..i] == [Dot, DotDot][from..i] && (i < 2 ==> items[i] == [Dot, DotDot][i])
    {
      ItemsFront(kids, from, i);
    }
    if at - 2 < |kids| {
      forall i | at <= i <= ctx.at ensures items[from..i] == dots + Names(kids[at - 2..i - 2]) {
        ItemsBehind(kids, from, at, i, dots);
      }
      forall i | 2 <= i < |items| ensures items[i] == Child(kids[i - 2]) { ItemsAt(kids, i); }
      forall i | at <= i < ctx.at ensures accept(items[from..i], items[i]) {
        assert accept(dots + Names(kids[at - 2..i - 2]), Child(kids[i - 2]));
      }
    }
  }

  lemma GoesIs(accept: Consumer, ctx: Ctx, kids: seq<nat>, r: Ctx)
    requires ctx.pos == 2 <= ctx.at && Goes(accept, ctx, kids, r)
    ensures ctx.at - 2 >= |kids| ==> r.at == ctx.at && r.out == ctx.out
    ensures ctx.at - 2 < |kids| ==>
      && ctx.at <= r.at <= |kids| + 2 && r.out == ctx.out + Names(kids[ctx.at - 2..r.at - 2])
      && (forall j :: ctx.at - 2 <= j < r.at - 2 ==> accept(ctx.out + Names(kids[ctx.at - 2..j]), Child(kids[j])))
      && (r.at - 2 < |kids| ==> !accept(r.out, Child(kids[r.at - 2])))
  {
  }

  lemma ItemsFront(kids: seq<nat>, from: nat, i: nat)
    requires from <= i <= 2
    ensures Items(kids)[from..i] == [Dot, DotDot][from..i] && (i < 2 ==> Items(kids)[i] == [Dot, DotDot][i])
  {
  }

  lemma ItemsBehind(kids: seq<nat>, from: nat, at: nat, i: nat, dots: seq<Item>)
    requires from <= at && 2 <= at <= i <= |kids| + 2
    requires (from >= 2 ==> at == from && dots == []) && (from < 2 ==> at == 2 && dots == [Dot, DotDot][from..2])
    ensures Items(kids)[from..i] == dots + Names(kids[at - 2..i - 2])
  {
    ItemsLater(kids, at, i);
    assert Items(kids)[from..i] == Items(kids)[from..at] + Items(kids)[at..i];
    if from < 2 { ItemsFront(kids, from, 2); }
  }

  lemma ItemsAt(kids: seq<nat>, i: nat)
    requires 2 <= i < |kids| + 2
    ensures Items(kids)[i] == Child(kids[i - 2])
  {
  }

  // One call of a session, with the children the directory had at that time.
  datatype Call = Call(kids: seq<nat>, accept: Consumer, from: nat, out: seq<Item>, to: nat)

  // A session starts at the front; each call goes on where the last one stopped, and children
  // may have been added in between.
  ghost predicate Session(cs: seq<Call>) {
    && (|cs| > 0 ==> cs[0].from == 0)
    && (forall i :: 0 <= i < |cs| ==> Round(Items(cs[i].kids), cs[i].accept, cs[i].from, cs[i].out, cs[i].to))
    && (forall i :: 0 < i < |cs| ==> cs[i].from == cs[i - 1].to && cs[i - 1].kids <= cs[i].kids)
  }

  function Given(cs: seq<Call>): seq<Item> {
    if |cs| == 0 then [] else Given(cs[..|cs| - 1]) + cs[|cs| - 1].out
  }

  lemma MoreItems(a: seq<nat>, b: seq<nat>)
    requires a <= b
    ensures |Items(a)| <= |Items(b)| && Items(b)[..|Items(a)|] == Items(a)
  {
  }

  // However often the consumer stops and whenever children are added: what was given so far is
  // the list of the dots and all children in the order they were added, up to the cursor.
  lemma {:induction false} SessionGives(cs: seq<Call>)
    requires Session(cs) && |cs| > 0
    ensures var c := cs[|cs| - 1]; c.to <= |Items(c.kids)| && Given(cs) == Items(c.kids)[..c.to]
  {
    var n := |cs| - 1;
    var c := cs[n];
    var items := Items(c.kids);
    if n == 0 {
      assert cs[..0] == [] && Given(cs[..0]) == [];
      assert items[0..c.to] == items[..c.to];
    } else {
      var front := cs[..n];
      assert Session(front) by {
        assert forall i :: 0 <= i < |front| ==> front[i] == cs[i];
      }
      SessionGives(front);
      var d := cs[n - 1];
      assert front[n - 1] == d;
      MoreItems(d.kids, c.kids);
      SessionJoin(items, Items(d.kids), d.to, c.to, c.out);
    }
  }

  lemma SessionJoin(items: seq<Item>, before: seq<Item>, mid: nat, to: nat, out: seq<Item>)
    requires mid <= |before| <= |items| && items[..|before|] == before
    requires if mid >= |items| then to == mid && out == [] else mid <= to <= |items| && out == items[mid..to]
    ensures to <= |items| && before[..mid] + out == items[..to]
  {
    assert before[..mid] == items[..mid];
    if mid < |items| { assert items[..to] == items[..mid] + items[mid..to]; }
  }

  // A session whose last call was not refused an item has given each child exactly once.
  lemma SessionComplete(cs: seq<Call>)
    requires Session(cs) && |cs| > 0
    requires var c := cs[|cs| - 1]; c.to < |Items(c.kids)| ==> c.accept(c.out, Items(c.kids)[c.to])
    ensures Given(cs) == Items(cs[|cs| - 1].kids)
    ensures var out, kids := Given(cs), cs[|cs| - 1].kids;
      && |out| == |kids| + 2 && out[0] == Dot && out[1] == DotDot
      && forall i :: 0 <= i < |kids| ==> out[i + 2] == Child(kids[i])
  {
    SessionGives(cs);
    var c := cs[|cs| - 1];
    assert c.to == |Items(c.kids)|;
    assert Items(c.kids)[..c.to] == Items(c.kids);
  }
}
