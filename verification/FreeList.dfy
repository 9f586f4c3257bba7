// The sector allocator (free_list.c): first fit, carving from the tail of an extent.

module FreeLists {
  import opened Entries
  import opened Disks

  function Total(exts: seq<Extent>): nat {
    if |exts| == 0 then 0 else exts[0].blocks + Total(exts[1..])
  }

  // The first extent with room for n blocks; the length when there is none.
  function Fit(exts: seq<Extent>, n: nat): (i: nat)
    ensures i <= |exts| && (i < |exts| ==> exts[i].blocks >= n)
    ensures forall j :: 0 <= j < i ==> exts[j].blocks < n
  {
    if |exts| == 0 || exts[0].blocks >= n then 0 else 1 + Fit(exts[1..], n)
  }

  lemma FitIs(exts: seq<Extent>, n: nat, i: nat)
    requires i <= |exts| && (i < |exts| ==> exts[i].blocks >= n)
    requires forall j :: 0 <= j < i ==> exts[j].blocks < n
    ensures i == Fit(exts, n)
  {
    var k := Fit(exts, n);
    assert forall j :: 0 <= j < k ==> exts[j].blocks < n;
  }

  // The sector handed out (0 for none) and the extents left behind.
  function Carve(exts: seq<Extent>, n: nat): (Sector, seq<Extent>) {
    var i := Fit(exts, n);
    if Total(exts) > n && i < |exts| then
      var rest := exts[i].blocks - n;
      (exts[i].start + rest, exts[i := Extent(exts[i].start, rest)])
    else (0, exts)
  }

  // Extent i is the first with at least n blocks; the run from r on is its last n sectors, which it
  // loses, keeping its start, and all other extents stay as they are.
  ghost predicate TailOf(exts: seq<Extent>, n: nat, i: nat, r: Sector, rest: seq<Extent>) {
    && i < |exts| == |rest| && exts[i].blocks >= n && (forall j :: 0 <= j < i ==> exts[j].blocks < n)
    && r + n == exts[i].start + exts[i].blocks && rest[i].start == exts[i].start && rest[i].blocks + n == exts[i].blocks
    && forall j :: 0 <= j < |exts| && j != i ==> rest[j] == exts[j]
  }

  // What an allocation does, said without first fit and carving: it is refused, and changes nothing,
  // when the total is not above the request or no extent is long enough; otherwise it hands out the
  // tail of the first extent that is.
  ghost predicate Allocated(exts: seq<Extent>, n: nat, r: Sector, rest: seq<Extent>) {
    if Total(exts) <= n || forall j :: 0 <= j < |exts| ==> exts[j].blocks < n then r == 0 && rest == exts
    else exists i :: TailOf(exts, n, i, r, rest)
  }

  lemma CarveAllocates(exts: seq<Extent>, n: nat)
    ensures Allocated(exts, n, Carve(exts, n).0, Carve(exts, n).1)
  {
    var i := Fit(exts, n);
    if Total(exts) > n && i < |exts| {
      assert TailOf(exts, n, i, Carve(exts, n).0, Carve(exts, n).1);
    }
  }

  // There is only one such outcome.
  lemma AllocatedOnce(exts: seq<Extent>, n: nat, r: Sector, rest: seq<Extent>)
    requires Allocated(exts, n, r, rest)
    ensures (r, rest) == Carve(exts, n)
  {
    if i :| TailOf(exts, n, i, r, rest) && !(Total(exts) <= n || forall j :: 0 <= j < |exts| ==> exts[j].blocks < n) {
      FitIs(exts, n, i);
      assert rest == Carve(exts, n).1;
    }
  }

  predicate InRun(x: Sector, start: Sector, n: nat) {
    start <= x < start + n
  }

  ghost function Run(start: Sector, n: nat): set<Sector> {
    set x: Sector | start <= x < start + n && InRun(x, start, n)
  }

  lemma RunOne(start: Sector)
    ensures Run(start, 1) == {start}
  {
    assert InRun(start, start, 1);
  }

  ghost function Cover(exts: seq<Extent>): set<Sector> {
    if |exts| == 0 then {} else Run(exts[0].start, exts[0].blocks) + Cover(exts[1..])
  }

  // No two extents share a sector.
  ghost predicate Apart(exts: seq<Extent>) {
    |exts| == 0 || (Run(exts[0].start, exts[0].blocks) !! Cover(exts[1..]) && Apart(exts[1..]))
  }

  lemma {:induction false} TotalUpdate(exts: seq<Extent>, i: nat, e: Extent)
    requires i < |exts|
    ensures Total(exts[i := e]) == Total(exts) - exts[i].blocks + e.blocks
  {
    if i > 0 {
      assert exts[i := e][1..] == exts[1..][i - 1 := e];
      TotalUpdate(exts[1..], i - 1, e);
    } else {
      assert exts[i := e][1..] == exts[1..];
    }
  }

  lemma {:induction false} TotalPositive(exts: seq<Extent>)
    requires Total(exts) > 0
    ensures Fit(exts, 1) < |exts|
  {
    if exts[0].blocks == 0 {
      TotalPositive(exts[1..]);
    }
  }

  // Shortening an extent from its tail frees exactly that tail.
  lemma {:induction false} CarveCover(exts: seq<Extent>, i: nat, k: nat)
    requires Apart(exts) && i < |exts| && k <= exts[i].blocks
    ensures var rest := exts[i := Extent(exts[i].start, k)];
      var run := Run(exts[i].start + k, exts[i].blocks - k);
      Apart(rest) && run <= Cover(exts) && Cover(rest) == Cover(exts) - run
  {
    var e := exts[i];
    var rest := exts[i := Extent(e.start, k)];
    if i == 0 {
      assert rest[1..] == exts[1..];
      assert Run(e.start, k) + Run(e.start + k, e.blocks - k) == Run(e.start, e.blocks);
    } else {
      assert rest[1..] == exts[1..][i - 1 := Extent(e.start, k)];
      CarveCover(exts[1..], i - 1, k);
    }
  }

  // One allocation moves exactly the run it hands out from the free side to the used side,
  // and fails exactly when the total is not above the request or no extent is long enough.
  lemma CarveExact(exts: seq<Extent>, n: nat)
    requires Apart(exts) && 0 !in Cover(exts)
    ensures var (r, rest) := Carve(exts, n);
      && Apart(rest) && |rest| == |exts| && 0 !in Cover(rest)
      && (n > 0 ==> (r == 0 <==> Total(exts) <= n || Fit(exts, n) == |exts|))
      && (r == 0 ==> Cover(rest) == Cover(exts) && Total(rest) == Total(exts))
      && (r != 0 ==>
            && Run(r, n) <= Cover(exts) && Cover(rest) == Cover(exts) - Run(r, n)
            && Total(rest) == Total(exts) - n)
  {
    var i := Fit(exts, n);
    var (r, rest) := Carve(exts, n);
    if Total(exts) > n && i < |exts| {
      var k := exts[i].blocks - n;
      if n == 0 { assert rest == exts; }
      TotalUpdate(exts, i, rest[i]);
      CarveCover(exts, i, k);
      if n > 0 {
        assert InRun(r, exts[i].start + k, n);
      }
    }
  }

  // A run of allocations: the runs handed out in order, and the extents left behind.
  datatype Grant = Grant(start: Sector, blocks: nat)

  function Grants(exts: seq<Extent>, asked: seq<nat>): seq<Grant>
    decreases |asked|
  {
    if |asked| == 0 then [] else
      var (r, rest) := Carve(exts, asked[0]);
      (if r == 0 then [] else [Grant(r, asked[0])]) + Grants(rest, asked[1..])
  }

  function Left(exts: seq<Extent>, asked: seq<nat>): seq<Extent>
    decreases |asked|
  {
    if |asked| == 0 then exts else Left(Carve(exts, asked[0]).1, asked[1..])
  }

  ghost function Granted(gs: seq<Grant>): set<Sector> {
    if |gs| == 0 then {} else Run(gs[0].start, gs[0].blocks) + Granted(gs[1..])
  }

  function GrantedBlocks(gs: seq<Grant>): nat {
    if |gs| == 0 then 0 else gs[0].blocks + GrantedBlocks(gs[1..])
  }

  // No sector is granted twice.
  ghost predicate GrantsApart(gs: seq<Grant>) {
    |gs| == 0 || (Run(gs[0].start, gs[0].blocks) !! Granted(gs[1..]) && GrantsApart(gs[1..]))
  }

  // Over any run of allocations the free and the granted runs together are exactly the free
  // space at the start, without overlap; block counts add up and the last block is never given.
  lemma {:induction false} RunConserves(exts: seq<Extent>, asked: seq<nat>)
    requires Apart(exts) && 0 !in Cover(exts) && forall i :: 0 <= i < |asked| ==> asked[i] > 0
    ensures var gs, rest := Grants(exts, asked), Left(exts, asked);
      && Apart(rest) && 0 !in Cover(rest) && GrantsApart(gs) && Granted(gs) !! Cover(rest)
      && Granted(gs) + Cover(rest) == Cover(exts)
      && GrantedBlocks(gs) + Total(rest) == Total(exts) && (Total(exts) > 0 ==> Total(rest) > 0)
    decreases |asked|
  {
    hide Carve, Total, Cover, Apart;
    if |asked| > 0 {
      var (r, rest) := Carve(exts, asked[0]);
      CarveExact(exts, asked[0]);
      CarveKeepsOne(exts, asked[0]);
      RunConserves(rest, asked[1..]);
      if r != 0 {
        var gs := Grants(exts, asked);
        assert gs[0] == Grant(r, asked[0]) && gs[1..] == Grants(rest, asked[1..]);
      } else {
        assert Grants(exts, asked) == Grants(rest, asked[1..]);
      }
    }
  }

  lemma CarveKeepsOne(exts: seq<Extent>, n: nat)
    ensures Total(exts) > 0 ==> Total(Carve(exts, n).1) > 0
  {
    var i := Fit(exts, n);
    if Total(exts) > n && i < |exts| {
      TotalUpdate(exts, i, Extent(exts[i].start, exts[i].blocks - n));
    }
  }

  // A request for nothing is answered with the sector behind the first extent, and takes
  // nothing: an answer is a sector taken from the free space exactly for positive requests.
  lemma AnswerTaken(exts: seq<Extent>, n: nat)
    requires Apart(exts) && 0 !in Cover(exts) && Carve(exts, n).0 != 0
    ensures Carve(exts, n).0 in Cover(exts) && Carve(exts, n).0 !in Cover(Carve(exts, n).1) <==> n > 0
    ensures n == 0 ==> Carve(exts, n) == (exts[0].start + exts[0].blocks, exts)
  {
    var (r, rest) := Carve(exts, n);
    CarveExact(exts, n);
    if n > 0 {
      assert InRun(r, r, n);
      assert r in Run(r, n);
    } else {
      assert rest == exts;
    }
  }

  // The free-list chain on disk, block by block; it either ends or runs into a block that is
  // none of its own.
  ghost predicate ListAt(b: map<Sector, Block>, head: Sector, chain: seq<Sector>, whole: bool)
    decreases |chain|
  {
    if |chain| == 0 then (if whole then head == 0 else head != 0 && !(head in b && b[head].FreeB?))
    else head == chain[0] != 0 && head in b && b[head].FreeB? && ListAt(b, b[head].next, chain[1..], whole)
  }

  ghost function Listed(b: map<Sector, Block>, chain: seq<Sector>): seq<Extent> {
    if |chain| == 0 then []
    else (if chain[0] in b && b[chain[0]].FreeB? then b[chain[0]].entries else []) + Listed(b, chain[1..])
  }

  // The walk never comes back to a block: an ending chain has no cycle.
  lemma {:induction false} ListNoCycle(b: map<Sector, Block>, head: Sector, chain: seq<Sector>, whole: bool, i: nat,
                                       j: nat)
    requires ListAt(b, head, chain, whole) && i < j < |chain|
    ensures chain[i] != chain[j]
  {
    ListDrop(b, head, chain, whole, i);
    ListDrop(b, head, chain, whole, j);
    if chain[i] == chain[j] {
      ListUnique(b, chain[i], chain[i..], chain[j..], whole);
    }
  }

  lemma {:induction false} ListDrop(b: map<Sector, Block>, head: Sector, chain: seq<Sector>, whole: bool, i: nat)
    requires ListAt(b, head, chain, whole) && i < |chain|
    ensures ListAt(b, chain[i], chain[i..], whole)
    decreases |chain|
  {
    if i > 0 {
      ListDrop(b, b[head].next, chain[1..], whole, i - 1);
      assert chain[1..][i - 1..] == chain[i..];
    } else {
      assert chain[0..] == chain;
    }
  }

  lemma {:induction false} ListUnique(b: map<Sector, Block>, head: Sector, c: seq<Sector>, d: seq<Sector>, whole: bool)
    requires ListAt(b, head, c, whole) && ListAt(b, head, d, whole)
    ensures |c| == |d|
    decreases |c|
  {
    if |c| > 0 && |d| > 0 {
      ListUnique(b, b[head].next, c[1..], d[1..], whole);
    }
  }

  function Reversed(s: seq<Extent>): (r: seq<Extent>)
    ensures |r| == |s|
  {
    if |s| == 0 then [] else Reversed(s[1..]) + [s[0]]
  }

  lemma {:induction false} ReversedAt(s: seq<Extent>, i: nat)
    requires i < |s|
    ensures Reversed(s)[i] == s[|s| - 1 - i]
  {
    if i < |s| - 1 { ReversedAt(s[1..], i); }
  }

  lemma {:induction false} ReversedSnoc(s: seq<Extent>, e: Extent)
    ensures Reversed(s + [e]) == [e] + Reversed(s)
  {
    if |s| == 0 {
      assert s + [e] == [e];
    } else {
      assert (s + [e])[1..] == s[1..] + [e];
      ReversedSnoc(s[1..], e);
    }
  }

  lemma {:induction false} Snoc(s: seq<Extent>, e: Extent)
    ensures Total(s + [e]) == Total(s) + e.blocks && Cover(s + [e]) == Cover(s) + Run(e.start, e.blocks)
    ensures Apart(s + [e]) <==> Apart(s) && Run(e.start, e.blocks) !! Cover(s)
  {
    if |s| == 0 {
      assert s + [e] == [e] && Cover([e][1..]) == {} && Total([e][1..]) == 0;
    } else {
      assert (s + [e])[1..] == s[1..] + [e];
      Snoc(s[1..], e);
    }
  }

  // The order of the list does not matter for what is free.
  lemma {:induction false} ReversedSame(s: seq<Extent>)
    ensures Total(Reversed(s)) == Total(s) && Cover(Reversed(s)) == Cover(s) && (Apart(Reversed(s)) <==> Apart(s))
  {
    if |s| > 0 {
      ReversedSame(s[1..]);
      Snoc(Reversed(s[1..]), s[0]);
    }
  }

  lemma ListedNext(b: map<Sector, Block>, before: seq<Extent>, left: seq<Sector>, cur: Sector, whole: bool)
    requires ListAt(b, cur, left, whole) && cur in b && b[cur].FreeB? && cur != 0
    ensures |left| > 0 && ListAt(b, b[cur].next, left[1..], whole)
    ensures before + Listed(b, left) == (before + b[cur].entries) + Listed(b, left[1..])
  {
  }

  lemma ListedNone(b: map<Sector, Block>, left: seq<Sector>, loaded: seq<Extent>)
    requires |left| == 0
    ensures loaded + Listed(b, left) == loaded
  {
  }

  lemma NothingListed()
    ensures Reversed([]) == [] && Total([]) == 0 && Linked([]) && ExtsOf([]) == []
  {
  }

  lemma LinkedFront(n: FreeNode, spine: seq<FreeNode>)
    requires Linked(spine) && n !in spine && n.next == At(spine, 0)
    ensures Linked([n] + spine) && ExtsOf([n] + spine) == [Extent(n.start, n.blocks)] + ExtsOf(spine)
  {
  }

  class FreeNode {
    var start: Sector
    var blocks: nat
    var next: FreeNode?

    constructor (start: Sector, blocks: nat, next: FreeNode?)
      ensures this.start == start && this.blocks == blocks && this.next == next
    {
      this.start, this.blocks, this.next := start, blocks, next;
    }
  }

  function At(cells: seq<FreeNode>, i: nat): FreeNode? {
    if i < |cells| then cells[i] else null
  }

  // The cells hang together in order, the last one ending the list.
  ghost predicate Linked(cells: seq<FreeNode>)
    reads cells
  {
    && (forall i, j :: 0 <= i < j < |cells| ==> cells[i] != cells[j])
    && (forall i :: 0 <= i < |cells| ==> cells[i].next == At(cells, i + 1))
  }

  ghost function ExtsOf(cells: seq<FreeNode>): (s: seq<Extent>)
    reads cells
    ensures |s| == |cells|
  {
    seq(|cells|, i requires 0 <= i < |cells| reads cells => Extent(cells[i].start, cells[i].blocks))
  }

  class FreeList {
    var blocks: nat
    var root: FreeNode?
    ghost var spine: seq<FreeNode>

    ghost function Exts(): (s: seq<Extent>)
      reads this, spine
    {
      ExtsOf(spine)
    }

    ghost function Avail(): set<Sector>
      reads this, spine
    {
      Cover(Exts())
    }

    ghost predicate Valid()
      reads this, spine
    {
      && Linked(spine) && root == At(spine, 0)
      && blocks == Total(Exts()) && Apart(Exts()) && 0 !in Avail()
    }

    constructor Empty()
      ensures root == null && blocks == 0 && spine == []
    {
      root, blocks, spine := null, 0, [];
    }

    // One block's entries, each put in front of the list.
    method LoadEntries(entries: seq<Extent>, ghost loaded: seq<Extent>)
      requires Linked(spine) && root == At(spine, 0)
      requires Exts() == Reversed(loaded) && blocks == Total(loaded)
      modifies this
      ensures fresh(set c <- spine | c !in old(spine)) && Linked(spine) && root == At(spine, 0)
      ensures Exts() == Reversed(loaded + entries) && blocks == Total(loaded + entries)
    {
      hide Total, Cover, Apart, Reversed, ExtsOf, Linked;
      var i := 0;
      assert loaded + entries[..0] == loaded;
      while i < |entries|
        invariant i <= |entries|
        invariant fresh(set c <- spine | c !in old(spine)) && Linked(spine) && root == At(spine, 0)
        invariant Exts() == Reversed(loaded + entries[..i]) && blocks == Total(loaded + entries[..i])
      {
        var node := new FreeNode(entries[i].start, entries[i].blocks, root);
        LinkedFront(node, spine);
        assert loaded + entries[..i + 1] == (loaded + entries[..i]) + [entries[i]];
        ReversedSnoc(loaded + entries[..i], entries[i]);
        Snoc(loaded + entries[..i], entries[i]);
        root, spine, blocks := node, [node] + spine, blocks + node.blocks;
        i := i + 1;
      }
      assert entries[..|entries|] == entries;
    }

    // spfs_free_init: walk the chain of free-list blocks, putting each entry in front.
    method Init(disk: Disk, head: Sector, ghost chain: seq<Sector>, ghost whole: bool) returns (ok: bool)
      requires ListAt(disk.blocks, head, chain, whole)
      modifies this
      ensures ok == whole && fresh(spine)
      ensures ok ==> Exts() == Reversed(Listed(disk.blocks, chain)) && blocks == Total(Listed(disk.blocks, chain))
      ensures ok && Apart(Listed(disk.blocks, chain)) && 0 !in Cover(Listed(disk.blocks, chain)) ==>
        Valid() && Avail() == Cover(Listed(disk.blocks, chain))
    {
      hide Total, Cover, Apart, Reversed, ExtsOf, Linked, Listed;
      root, blocks, spine := null, 0, [];
      var cur := head;
      ghost var left, loaded: seq<Extent> := chain, [];
      assert [] + Listed(disk.blocks, chain) == Listed(disk.blocks, chain);
      assert Linked(spine) && Exts() == Reversed([]) && Total([]) == 0 by { NothingListed(); }
      while cur != 0
        invariant ListAt(disk.blocks, cur, left, whole)
        invariant Listed(disk.blocks, chain) == loaded + Listed(disk.blocks, left)
        invariant fresh(spine) && Linked(spine) && root == At(spine, 0)
        invariant Exts() == Reversed(loaded) && blocks == Total(loaded)
        decreases |left|
      {
        if cur !in disk.blocks || !disk.blocks[cur].FreeB? {
          return false;
        }
        ghost var before := loaded;
        loaded := loaded + disk.blocks[cur].entries;
        LoadEntries(disk.blocks[cur].entries, before);
        ListedNext(disk.blocks, before, left, cur, whole);
        cur := disk.blocks[cur].next;
        left := left[1..];
      }
      assert loaded + Listed(disk.blocks, left) == loaded by { ListedNone(disk.blocks, left, loaded); }
      ReversedSame(loaded);
      return true;
    }

    // The walk over the cells.
    method FindFit(n: nat) returns (list: FreeNode?, ghost i: nat)
      requires Valid()
      ensures i == Fit(Exts(), n) && list == At(spine, i)
    {
      list, i := root, 0;
      while list != null && list.blocks < n
        invariant i <= |spine| && list == At(spine, i)
        invariant forall j :: 0 <= j < i ==> Exts()[j].blocks < n
        decreases |spine| - i
      {
        list := list.next;
        i := i + 1;
      }
      FitIs(Exts(), n, i);
    }

    // Taking a single sector: all a tree node, an inode block or a directory block needs.
    method AllocOne() returns (result: Sector)
      requires Valid()
      modifies `blocks, spine
      ensures Valid() && (result == 0 <==> old(blocks) <= 1) && Allocated(old(Exts()), 1, result, Exts())
      ensures result == 0 ==> Avail() == old(Avail()) && blocks == old(blocks)
      ensures result != 0 ==>
        && result in old(Avail()) && Avail() == old(Avail()) - {result} && blocks == old(blocks) - 1
    {
      hide FreeList.Valid, Carve, FreeList.Avail, FreeList.Exts, Allocated;
      result := Alloc(1);
      RunOne(result);
    }

    // The body of spfs_free_alloc under the list lock.
    method FirstFit(n: nat) returns (result: Sector)
      requires Valid() && blocks > n
      modifies `blocks, spine
      ensures Linked(spine) && result == Carve(old(Exts()), n).0
      ensures Exts() == Carve(old(Exts()), n).1
      ensures blocks == if Fit(old(Exts()), n) < |spine| then old(blocks) - n else old(blocks)
    {
      hide Linked, Total, Cover, Apart;
      result := 0;
      var list, i := FindFit(n);
      if list != null {
        Shrink(spine, list, i, n);
        blocks := blocks - n;
        result := list.start + list.blocks;
      }
    }

    // spfs_free_alloc
    method Alloc(n: nat) returns (result: Sector)
      requires Valid()
      modifies `blocks, spine
      ensures Valid() && result == Carve(old(Exts()), n).0 && Exts() == Carve(old(Exts()), n).1
      ensures Allocated(old(Exts()), n, result, Exts())
      ensures result == 0 ==> Avail() == old(Avail()) && blocks == old(blocks)
      ensures result != 0 ==>
        && Run(result, n) <= old(Avail()) && Avail() == old(Avail()) - Run(result, n)
        && blocks == old(blocks) - n
      ensures n == 1 ==> (result != 0 <==> old(blocks) > 1)
    {
      result := 0;
      CarveExact(Exts(), n);
      CarveAllocates(Exts(), n);
      if n == 1 && blocks > 1 { TotalPositive(Exts()); }
      if blocks > n {
        result := FirstFit(n);
      }
    }
  }

  // A cell gives up its last n sectors.
  method Shrink(ghost cells: seq<FreeNode>, list: FreeNode, ghost i: nat, n: nat)
    requires Linked(cells) && i < |cells| && cells[i] == list && n <= list.blocks
    modifies list`blocks
    ensures Linked(cells) && list.blocks == old(list.blocks) - n
    ensures ExtsOf(cells) == old(ExtsOf(cells))[i := Extent(list.start, list.blocks)]
  {
    list.blocks := list.blocks - n;
  }
}
