// Files and directories in the source as it stands (sp.c), where it parts from what it sets out to
// do. For whole reads and writes as they stand: exactly when they give the lock of the inode back,
// and what size they leave. For each place taken by itself, with all other repairs made: the exact
// condition under which it still does the right thing.

module AsWritten {
  import opened Entries
  import opened Disks
  import opened Words
  import opened Streams
  import opened Extents
  import opened Chains
  import Locks
  import opened BTrees
  import opened Directories

  // spfs_write_file_extent counts only what went into the first sector d, not the sectors z
  // behind it.
  ghost function HeadCount(d: seq<Byte>, p: nat, x: seq<Byte>): nat {
    |x| - |Pour(d, p, x).rest|
  }

  lemma HeadCountRight(d: seq<Byte>, z: seq<Byte>, p: nat, x: seq<Byte>)
    requires |z| > 0
    ensures HeadCount(d, p, x) == HeadCount(d + z, p, x) <==> x == [] || p + |x| <= |d| || p >= |d| + |z|
    ensures HeadCount(d, p, x) == 0 <==> x == [] || p >= |d|
  {
  }

  // spfs_write_file_extent adds every byte written to the length of the extent: right exactly
  // when the write starts where the bytes in use end, or does not touch the extent.
  lemma LengthAdded(len: nat, d: seq<Byte>, p: nat, x: seq<Byte>)
    requires len <= |d|
    ensures len + HeadCount(d, p, x) == Reach(len, 0, d, p, x) <==> x == [] || p == len || p >= |d|
  {
  }

  // An extent as a write meets it: whether its header can be parsed, its data bytes in the first
  // sector and those in the sectors behind it.
  datatype Parts = Parts(parsed: bool, head: seq<Byte>, inner: seq<Byte>)

  function Size(e: Parts): nat {
    |e.head| + |e.inner|
  }

  // Every extent has room for data behind its header.
  predicate Headed(es: seq<Parts>) {
    forall i :: 0 <= i < |es| ==> es[i].head != []
  }

  // spfs_write gives up with an error at the first extent that cannot be parsed or for which the
  // count is not 0, and halts where the chain ends too early.
  ghost predicate GivesUp(es: seq<Parts>, p: nat, x: seq<Byte>) {
    if |es| == 0 || !es[0].parsed || HeadCount(es[0].head, p, x) != 0 then true
    else
      var r := Pour(es[0].head + es[0].inner, p, x);
      r.rest != [] && GivesUp(es[1..], r.pos, r.rest)
  }

  // The bytes counted by then: none, when the write comes to its end.
  ghost function Counted(es: seq<Parts>, p: nat, x: seq<Byte>): (n: nat)
    ensures !GivesUp(es, p, x) ==> n == 0
  {
    if |es| == 0 || !es[0].parsed then 0
    else
      var r := Pour(es[0].head + es[0].inner, p, x);
      HeadCount(es[0].head, p, x) + if r.rest == [] then 0 else Counted(es[1..], r.pos, r.rest)
  }

  // The extent that holds position p holds it, and the n bytes from there on, behind its first
  // sector; it and those in front of it can be parsed.
  predicate Inside(es: seq<Parts>, p: nat, n: nat) {
    |es| > 0 && es[0].parsed &&
    if p >= Size(es[0]) then Inside(es[1..], p - Size(es[0]), n) else |es[0].head| <= p && p + n <= Size(es[0])
  }

  // A write comes to its end exactly when it keeps to the inner sectors of one extent and can
  // parse its way there.
  lemma {:induction false} GivesUpUnless(es: seq<Parts>, p: nat, x: seq<Byte>)
    requires x != [] && Headed(es)
    ensures GivesUp(es, p, x) <==> !Inside(es, p, |x|)
  {
    hide Pour, HeadCount;
    if |es| > 0 && es[0].parsed {
      var d := es[0].head + es[0].inner;
      PourCases(d, p, x);
      HeadZero(es[0].head, p, x);
      if p >= |d| {
        assert forall i :: 0 <= i < |es[1..]| ==> es[1..][i] == es[i + 1];
        PourPast(d, p, x);
        GivesUpUnless(es[1..], p - |d|, x);
      } else if p >= |es[0].head| && p + |x| > |d| && |es| > 1 {
        assert es[1..][0] == es[1];
        HeadZero(es[1].head, 0, Pour(d, p, x).rest);
      }
    }
  }

  lemma HeadZero(d: seq<Byte>, p: nat, x: seq<Byte>)
    ensures HeadCount(d, p, x) == 0 <==> x == [] || p >= |d|
  {
  }

  // The lock of the inode comes back from a write exactly when the capacity suffices or an extent
  // is found, and the write keeps to the inner sectors of one extent it can get to.
  lemma WriteReturns(ino: nat, extended: bool, granted: bool, es: seq<Parts>, p: nat, x: seq<Byte>)
    requires x != [] && Headed(es)
    ensures Locks.Holds({}, Locks.WriteAsWritten(ino, extended, granted, GivesUp(es, p, x))) == {} <==>
              (!extended || granted) && Inside(es, p, |x|)
  {
    GivesUpUnless(es, p, x);
    Locks.WriteLeaks(ino, extended, granted, GivesUp(es, p, x));
  }

  // So no write to an empty file ever gives it back.
  lemma EmptyFileStuck(ino: nat, extended: bool, granted: bool, es: seq<Parts>, x: seq<Byte>)
    requires x != [] && Headed(es)
    ensures Locks.Holds({}, Locks.WriteAsWritten(ino, extended, granted, GivesUp(es, 0, x))) == {Locks.InodeLock(ino)}
  {
    GivesUpUnless(es, 0, x);
    Locks.WriteHolds(ino, extended, granted, GivesUp(es, 0, x));
  }

  // Such a write answers 0 and leaves the size as it was: right exactly when the file holds as much already.
  lemma SizeStays(es: seq<Parts>, s: seq<Byte>, p: nat, x: seq<Byte>)
    requires p <= |s| && !GivesUp(es, p, x)
    ensures |s| + Counted(es, p, x) == |s|
    ensures |s| + Counted(es, p, x) == |Overwrite(s, p, x)| <==> p + |x| <= |s|
    ensures Counted(es, p, x) == |x| <==> x == []
  {
  }

  // With all bytes counted, spfs_write sets the size to the old size plus the bytes written: the
  // size a flat byte string has after the write exactly when the write appends.
  lemma SizeAdded(s: seq<Byte>, p: nat, x: seq<Byte>)
    requires p <= |s|
    ensures |s| + |x| == |Overwrite(s, p, x)| <==> x == [] || p == |s|
  {
  }

  // spfs_read_file_extent: position and count still to go, bytes left in the sector and in the
  // extent.
  datatype Turn = Turn(pos: nat, left: nat, room: nat, length: nat)

  function NextTurn(t: Turn, bs: nat): Turn {
    var skip := Min(t.pos, Min(t.room, t.length));
    var got := if t.pos == skip then Min(t.left, Min(t.room - skip, t.length - skip)) else 0;
    Turn(t.pos - skip, t.left - got, bs, t.length - skip - got)
  }

  function Turns(t: Turn, bs: nat, n: nat): Turn
    decreases n
  {
    if n == 0 then t else Turns(NextTurn(t, bs), bs, n - 1)
  }

  // The loop ends only where the whole extent is used up, so it ends exactly when the bytes
  // asked for reach to the end of the extent.
  lemma ReadLoopEnds(t: Turn, bs: nat)
    requires bs > 0 && t.room > 0
    ensures (exists n: nat :: Turns(t, bs, n).length == 0) <==> t.pos + t.left >= t.length
  {
    if t.pos + t.left >= t.length {
      LoopEnds(t, bs);
    } else {
      forall n: nat ensures Turns(t, bs, n).length != 0 { LoopGoesOn(t, bs, n); }
    }
  }

  lemma {:induction false} LoopGoesOn(t: Turn, bs: nat, n: nat)
    requires t.pos + t.left < t.length
    ensures Turns(t, bs, n).length > 0
    decreases n
  {
    if n > 0 { LoopGoesOn(NextTurn(t, bs), bs, n - 1); }
  }

  lemma {:induction false} LoopEnds(t: Turn, bs: nat)
    requires bs > 0 && t.room > 0 && t.pos + t.left >= t.length
    ensures exists n: nat :: Turns(t, bs, n).length == 0
    decreases t.length
  {
    if t.length == 0 {
      assert Turns(t, bs, 0).length == 0;
    } else {
      var u := NextTurn(t, bs);
      assert u.length < t.length;
      LoopEnds(u, bs);
      var n: nat :| Turns(u, bs, n).length == 0;
      assert Turns(t, bs, n + 1) == Turns(u, bs, n);
    }
  }

  // Where the loop ends: everything in front of position and count is used up first.
  lemma {:induction false} LoopResult(t: Turn, bs: nat, m: nat)
    requires Turns(t, bs, m).length == 0
    ensures t.pos + t.left >= t.length && Turns(t, bs, m).pos == t.pos - Min(t.pos, t.length)
    ensures Turns(t, bs, m).left == t.left - (t.length - Min(t.pos, t.length))
    decreases m
  {
    if m > 0 { LoopResult(NextTurn(t, bs), bs, m - 1); }
  }

  // The state in which the extent is used up, if it ever is.
  ghost function LastTurn(t: Turn, bs: nat): Option<Turn> {
    if m: nat :| Turns(t, bs, m).length == 0 then Some(Turns(t, bs, m)) else None
  }

  lemma LastTurnIs(t: Turn, bs: nat)
    requires bs > 0 && t.room > 0
    ensures LastTurn(t, bs).Some? <==> t.pos + t.left >= t.length
    ensures LastTurn(t, bs).Some? ==>
      var u := LastTurn(t, bs).value; var skip := Min(t.pos, t.length);
      u.pos == t.pos - skip && u.left == t.left - (t.length - skip)
  {
    ReadLoopEnds(t, bs);
    if m: nat :| Turns(t, bs, m).length == 0 && LastTurn(t, bs) == Some(Turns(t, bs, m)) { LoopResult(t, bs, m); }
  }

  // How spfs_read comes out, on extents that cannot be parsed or have some number of bytes in use:
  // it goes from one to the next as long as there is one and the count is not used up.
  datatype Ending = Returned | Failed | Endless

  ghost function ReadEnds(es: seq<Option<nat>>, p: nat, n: nat, bs: nat): Ending
    requires bs > HEADER_SIZE
  {
    if |es| == 0 then Returned
    else if es[0].None? then Failed
    else
      var last := LastTurn(Turn(p, n, bs - HEADER_SIZE, es[0].value), bs);
      if last.None? then Endless
      else if last.value.left == 0 then Returned
      else ReadEnds(es[1..], last.value.pos, last.value.left, bs)
  }

  predicate Parsed(es: seq<Option<nat>>) {
    forall i :: 0 <= i < |es| ==> es[i].Some?
  }

  function InUse(es: seq<Option<nat>>): nat
    requires Parsed(es)
  {
    if |es| == 0 then 0 else es[0].value + InUse(es[1..])
  }

  // The first k extents can be parsed, and what is asked for reaches to their end or beyond.
  predicate Over(es: seq<Option<nat>>, k: nat, end: nat) {
    k <= |es| && Parsed(es[..k]) && InUse(es[..k]) <= end
  }

  lemma OverCons(es: seq<Option<nat>>, k: nat, end: nat)
    requires 0 < k <= |es|
    ensures Over(es, k, end) <==>
              es[0].Some? && es[0].value <= end && Over(es[1..], k - 1, end - es[0].value)
    ensures Over(es, k, end) ==> InUse(es[..k]) == es[0].value + InUse(es[1..][..k - 1])
  {
    assert es[..k][1..] == es[1..][..k - 1];
    if es[0].Some? && Parsed(es[1..][..k - 1]) {
      assert forall i :: 0 < i < k ==> es[..k][i] == es[1..][..k - 1][i - 1];
    }
    if Parsed(es[..k]) {
      assert es[..k][0].Some?;
      forall i | 0 <= i < k - 1 ensures es[1..][i].Some? {
        assert es[1..][i] == es[..k][i + 1];
      }
    }
  }

  // The bytes asked for end at the end of an extent, or behind all extents there are, and the
  // read can parse its way there.
  ghost predicate EndsWell(es: seq<Option<nat>>, end: nat) {
    exists k: nat :: Over(es, k, end) && (k == |es| || InUse(es[..k]) == end)
  }

  lemma EndsWellStep(es: seq<Option<nat>>, end: nat)
    requires end > 0
    ensures EndsWell(es, end) <==>
              |es| == 0 ||
              (es[0].Some? && (end == es[0].value || (end > es[0].value && EndsWell(es[1..], end - es[0].value))))
  {
    assert Over(es, 0, end);
    if k: nat :| 0 < k && Over(es, k, end) && (k == |es| || InUse(es[..k]) == end) {
      OverCons(es, k, end);
      assert end == es[0].value || EndsWell(es[1..], end - es[0].value);
    }
    if |es| > 0 && es[0].Some? && end == es[0].value {
      OverCons(es, 1, end);
      assert Over(es[1..], 0, 0);
      assert Over(es, 1, end);
    }
    if |es| > 0 && es[0].Some? && end > es[0].value && EndsWell(es[1..], end - es[0].value) {
      var k: nat :| Over(es[1..], k, end - es[0].value) && (k == |es| - 1 || InUse(es[1..][..k]) == end - es[0].value);
      OverCons(es, k + 1, end);
      assert Over(es, k + 1, end);
    }
  }

  // The bytes asked for end before those in use in an extent the read can parse its way to.
  ghost predicate EndsWithin(es: seq<Option<nat>>, end: nat) {
    exists k: nat ::
      Over(es, k, end) && k < |es| && es[k].Some? && InUse(es[..k]) < end < InUse(es[..k]) + es[k].value
  }

  lemma EndsWithinStep(es: seq<Option<nat>>, end: nat)
    requires end > 0
    ensures EndsWithin(es, end) <==>
              |es| > 0 && es[0].Some? &&
              (end < es[0].value || (end > es[0].value && EndsWithin(es[1..], end - es[0].value)))
  {
    assert Over(es, 0, end);
    if k: nat :|
      Over(es, k, end) && 0 < k < |es| && es[k].Some? && InUse(es[..k]) < end < InUse(es[..k]) + es[k].value
    {
      OverCons(es, k, end);
      assert Over(es[1..], k - 1, end - es[0].value) && es[1..][k - 1] == es[k];
    }
    if |es| > 0 && es[0].Some? && end > es[0].value && EndsWithin(es[1..], end - es[0].value) {
      WithinLater(es, end);
    }
  }

  lemma WithinLater(es: seq<Option<nat>>, end: nat)
    requires |es| > 0 && es[0].Some? && end > es[0].value && EndsWithin(es[1..], end - es[0].value)
    ensures EndsWithin(es, end)
  {
    var q := end - es[0].value;
    var k: nat :|
      Over(es[1..], k, q) && k < |es| - 1 && es[1..][k].Some? &&
      InUse(es[1..][..k]) < q < InUse(es[1..][..k]) + es[1..][k].value;
    OverCons(es, k + 1, end);
    assert Over(es, k + 1, end) && es[k + 1] == es[1..][k];
  }

  // A read returns exactly when the bytes asked for end at the end of an extent it can get to, or
  // it can get over all extents; it goes on for ever exactly when they end within one. Otherwise
  // it fails.
  lemma {:induction false} ReadEndsWell(es: seq<Option<nat>>, p: nat, n: nat, bs: nat)
    requires n > 0 && bs > HEADER_SIZE
    ensures ReadEnds(es, p, n, bs).Returned? <==> EndsWell(es, p + n)
    ensures ReadEnds(es, p, n, bs).Endless? <==> EndsWithin(es, p + n)
  {
    EndsWellStep(es, p + n);
    EndsWithinStep(es, p + n);
    if |es| > 0 && es[0].Some? {
      var last := LastTurn(Turn(p, n, bs - HEADER_SIZE, es[0].value), bs);
      LastTurnIs(Turn(p, n, bs - HEADER_SIZE, es[0].value), bs);
      if last.Some? && last.value.left > 0 {
        ReadEndsWell(es[1..], last.value.pos, last.value.left, bs);
      }
    }
  }

  // Only then does it give the lock of the inode back.
  lemma ReadReturns(ino: nat, es: seq<Option<nat>>, p: nat, n: nat, bs: nat)
    requires n > 0 && bs > HEADER_SIZE
    ensures Locks.Holds({}, Locks.ReadAsWritten(ino, ReadEnds(es, p, n, bs).Returned?)) == {} <==> EndsWell(es, p + n)
  {
    ReadEndsWell(es, p, n, bs);
    Locks.ReadLeaks(ino, ReadEnds(es, p, n, bs).Returned?);
  }

  // spfs_add_child makes a new block the first and only one, and no block at all of a failed
  // allocation.
  function AddReplacing(c: seq<DirBlk>, page: Sector, child: nat): seq<DirBlk> {
    if |c| > 0 && |c[|c| - 1].kids| < FULL
    then c[|c| - 1 := DirBlk(c[|c| - 1].sec, c[|c| - 1].kids + [child])]
    else if page == 0 then [] else [DirBlk(page, [child])]
  }

  // The children a call should leave: a child that finds no room stays out.
  function AddExpected(c: seq<DirBlk>, page: Sector, child: nat): seq<nat> {
    if |Kids(c)| % FULL == 0 && page == 0 then Kids(c) else Kids(c) + [child]
  }

  // The children before survive exactly when there is room in the last block, or there were none.
  lemma AddReplacingKeeps(b: map<Sector, Block>, c: seq<DirBlk>, bs: nat, page: Sector, child: nat)
    requires DirAt(b, c, bs)
    ensures Kids(AddReplacing(c, page, child)) == AddExpected(c, page, child) <==>
              |Kids(c)| % FULL != 0 || Kids(c) == []
  {
    KidsLen(b, c, bs);
    KidsOne(DirBlk(page, [child]));
    NoKids();
    if |c| > 0 && |c[|c| - 1].kids| < FULL {
      FullerKids(c, child);
    } else if |c| > 0 {
      assert |Kids(c)| >= FULL;
    }
  }

  lemma NoKids()
    ensures Kids([]) == []
  {
  }

  // spfs_dir_write_child silently drops a child that does not fit, though it is counted: a block
  // takes all its children exactly from a block size of 812 on.
  lemma RoomForAll(bs: nat)
    ensures (forall i :: 0 <= i < FULL ==> Slot(i) + STRIDE <= bs) <==> bs >= ROOMY
  {
    if bs < ROOMY {
      assert Slot(FULL - 1) + STRIDE == ROOMY;
    }
  }

  // What the reader finds from a position on when it looks for k children: it gives up where
  // fewer than eight bytes remain.
  ghost function Scan(s: seq<Byte>, pos: nat, k: nat): Option<seq<nat>>
    decreases if pos < |s| then |s| - pos else 0
  {
    if k == 0 then Some([])
    else if pos + 8 > |s| then None
    else
      var w := Word(s, pos);
      var rest := Scan(s, pos + 4, if w == 0 then k else k - 1);
      if w == 0 || rest.None? then rest else Some([w] + rest.value)
  }

  lemma {:induction false} ScanZero(s: seq<Byte>, pos: nat, k: nat)
    requires ZeroFrom(s, pos) && k > 0
    ensures Scan(s, pos, k) == None
    decreases if pos < |s| then |s| - pos else 0
  {
    if pos + 8 <= |s| {
      ZeroWord(s, pos);
      ScanZero(s, pos + 4, k);
    }
  }

  // Written children are found again, in order; one that was counted but dropped for lack of
  // room makes the reading of the whole block fail.
  lemma {:induction false} ScanFinds(s: seq<Byte>, kids: seq<nat>, i: nat, k: nat)
    requires i <= |kids| <= k && (forall j :: 0 <= j < |kids| ==> SlotIs(s, j, kids[j])) && ZeroFrom(s, Slot(|kids|))
    ensures Scan(s, Slot(i), k - i) == if k == |kids| then Some(kids[i..]) else None
    decreases |kids| - i
  {
    hide Dec;
    if i == |kids| {
      if k > |kids| { ScanZero(s, Slot(i), k - i); }
    } else {
      assert SlotIs(s, i, kids[i]);
      ScanFinds(s, kids, i + 1, k);
      assert Slot(i + 1) == Slot(i) + STRIDE;
      if i + 1 < |kids| { assert SlotIs(s, i + 1, kids[i + 1]); }
      assert kids[i..] == [kids[i]] + kids[i + 1..];
      ScanGap(s, Slot(i) + 4, k - i - 1);
    }
  }

  // Over an empty gap.
  lemma ScanGap(s: seq<Byte>, pos: nat, k: nat)
    requires pos + 4 <= |s| && Word(s, pos) == 0
    ensures k > 0 && pos + 8 <= |s| ==> Scan(s, pos, k) == Scan(s, pos + 4, k)
    ensures k > 0 && pos + 8 > |s| ==> Scan(s, pos, k) == Scan(s, pos + 4, k) == None
  {
  }

  lemma DroppedChild(s: seq<Byte>, next: Sector, kids: seq<nat>)
    requires DirBytes(s, next, kids)
    ensures Scan(s, DIR_HEADER, |kids|) == Some(kids) && Scan(s, DIR_HEADER, |kids| + 1) == None
  {
    ScanFinds(s, kids, 0, |kids|);
    ScanFinds(s, kids, 0, |kids| + 1);
    assert kids[0..] == kids;
  }

  // Inputs on which the source goes wrong.
  // A write over the first sector of an extent and the sector behind it.
  lemma HeadCountFails(d: seq<Byte>, z: seq<Byte>)
    requires |d| == 496 && |z| == 512
    ensures HeadCount(d, 0, d + [1]) != HeadCount(d + z, 0, d + [1])
  {
    HeadCountRight(d, z, 0, d + [1]);
  }

  lemma LengthAddedFails(d: seq<Byte>)
    requires |d| == 496
    ensures |d| + HeadCount(d, 0, [1]) != Reach(|d|, 0, d, 0, [1])
  {
    LengthAdded(|d|, d, 0, [1]);
  }

  lemma SizeAddedFails()
    ensures |[0]| + |[1]| != |Overwrite([0], 0, [1])|
  {
    SizeAdded([0], 0, [1]);
  }

  // Appending a byte to a file of 500 bytes in an extent of 1008.
  lemma SizeStaysFails(d: seq<Byte>, z: seq<Byte>, s: seq<Byte>)
    requires |d| == 496 && |z| == 512 && |s| == 500
    ensures var es := [Parts(true, d, z)];
      !GivesUp(es, 500, [1]) && |s| + Counted(es, 500, [1]) != |Overwrite(s, 500, [1])|
  {
    GivesUpUnless([Parts(true, d, z)], 500, [1]);
    SizeStays([Parts(true, d, z)], s, 500, [1]);
  }

  // The first byte of a file of more than one, all in one extent.
  lemma ReadLoopFails(size: nat, bs: nat)
    requires size > 1 && bs > HEADER_SIZE
    ensures ReadEnds([Some(size)], 0, 1, bs) == Endless
  {
    LastTurnIs(Turn(0, 1, bs - HEADER_SIZE, size), bs);
  }

  // The first byte ever written to a file.
  lemma FirstWriteFails(ino: nat, d: seq<Byte>)
    requires |d| == 496
    ensures var gives := GivesUp([Parts(true, d, [])], 0, [1]);
      Locks.InodeLock(ino) in Locks.Holds({}, Locks.WriteAsWritten(ino, true, true, gives))
  {
    EmptyFileStuck(ino, true, true, [Parts(true, d, [])], [1]);
  }

  lemma AddReplacingFails()
    ensures var c := [DirBlk(2, seq(FULL, i => i + 1))];
      Kids(AddReplacing(c, 3, 101)) == [101] && Kids(c) + [101] != [101]
  {
    var d := DirBlk(2, seq(FULL, i => i + 1));
    KidsOne(d);
    KidsOne(DirBlk(3, [101]));
  }
}
