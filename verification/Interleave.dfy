// Threads whose operations overlap: what any order of their critical sections comes to.

module Interleavings {
  import opened Worlds
  import opened Runs

  // What one thread does between taking and releasing a lock. Writing, reading and listing keep to
  // the lock of their object. A creation comes in two parts: the insertion into the index, where a
  // number no other creation was given gets its object or finds no room, and the naming in the
  // parent, which fails when no directory block is to be had. In between anybody may use the object.
  datatype Section =
    | Whole(op: Op)
    | Insert(parent: nat, ino: nat, isDir: bool, room: bool)
    | Name(ino: nat, ok: bool)

  // A creation under way.
  datatype Half = Half(parent: nat, isDir: bool)

  // How it may come out, with the object named or not.
  function NamedOp(a: nat, h: Half): Op {
    CreateOp(h.parent, a, h.isDir, Created)
  }

  function HalfOp(a: nat, h: Half): Op {
    CreateOp(h.parent, a, h.isDir, Unlinked)
  }

  ghost function WithChild(s: State, p: nat, a: nat): State
    requires p in s && s[p].Members?
  {
    s[p := Members(s[p].kids + [a])]
  }

  // The file system between two sections: its state, the numbers given out, and the objects that
  // are not named yet.
  datatype Moment = Moment(s: State, used: set<nat>, half: map<nat, Half>)

  ghost predicate Sound(m: Moment) {
    && m.s.Keys <= m.used && m.half.Keys <= m.s.Keys
    && forall a :: a in m.half ==> m.half[a].parent in m.s && m.s[m.half[a].parent].Members?
  }

  ghost predicate Possible(m: Moment, x: Section) {
    match x
    case Whole(op) => (op.WriteOp? || op.ReadOp? || op.ListOp?) && Enabled(m.s, op)
    case Insert(parent, ino, _, _) => parent in m.s && m.s[parent].Members? && ino !in m.used
    case Name(ino, _) => ino in m.half
  }

  ghost function Advance(m: Moment, x: Section): (n: Moment)
    requires Sound(m) && Possible(m, x)
    ensures Sound(n)
  {
    match x
    case Whole(op) => m.(s := Apply(m.s, op))
    case Insert(parent, ino, isDir, room) =>
      if room then Moment(m.s[ino := Blank(isDir)], m.used + {ino}, m.half[ino := Half(parent, isDir)])
      else m.(used := m.used + {ino})
    case Name(ino, ok) =>
      var p := m.half[ino].parent;
      Moment(if ok then WithChild(m.s, p, ino) else m.s, m.used, m.half - {ino})
  }

  // The operation that is over with a section, if any, and its outcome.
  ghost function Answer(m: Moment, x: Section): seq<Op>
    requires Possible(m, x)
  {
    match x
    case Whole(op) => [op]
    case Insert(parent, ino, isDir, room) => if room then [] else [CreateOp(parent, ino, isDir, NoRoom)]
    case Name(ino, ok) => [if ok then NamedOp(ino, m.half[ino]) else HalfOp(ino, m.half[ino])]
  }

  ghost predicate Trace(m: Moment, xs: seq<Section>)
    requires Sound(m)
    decreases |xs|
  {
    |xs| == 0 || (Possible(m, xs[0]) && Trace(Advance(m, xs[0]), xs[1..]))
  }

  ghost function Final(m: Moment, xs: seq<Section>): (n: Moment)
    requires Sound(m) && Trace(m, xs)
    ensures Sound(n)
    decreases |xs|
  {
    if |xs| == 0 then m else Final(Advance(m, xs[0]), xs[1..])
  }

  // The operations in the order in which they were over.
  ghost function Answers(m: Moment, xs: seq<Section>): seq<Op>
    requires Sound(m) && Trace(m, xs)
    decreases |xs|
  {
    if |xs| == 0 then [] else Answer(m, xs[0]) + Answers(Advance(m, xs[0]), xs[1..])
  }

  // Creations that are not over count as those that left no name.
  ghost function UnderWay(half: map<nat, Half>): set<Op> {
    set a | a in half :: HalfOp(a, half[a])
  }

  lemma {:induction false} RunsAppend(s: State, x: seq<Op>, y: seq<Op>)
    ensures IsRun(s, x + y) <==> IsRun(s, x) && IsRun(After(s, x), y)
    ensures IsRun(s, x + y) ==> After(s, x + y) == After(After(s, x), y)
    decreases |x|
  {
    if |x| == 0 {
      assert x + y == y;
    } else {
      assert (x + y)[0] == x[0] && (x + y)[1..] == x[1..] + y;
      RunsAppend(Apply(s, x[0]), x[1..], y);
    }
  }

  lemma {:induction false} KeysGrow(s: State, ops: seq<Op>)
    requires IsRun(s, ops)
    ensures s.Keys <= After(s, ops).Keys
    decreases |ops|
  {
    if |ops| > 0 { KeysGrow(Apply(s, ops[0]), ops[1..]); }
  }

  // The object an operation acts on in the first place.
  function Main(op: Op): nat {
    if op.CreateOp? then op.parent else op.ino
  }

  // The operations on object k that it shows, in order: all but the creations that left no name.
  ghost function OnOne(op: Op, k: nat): seq<Op> {
    if Main(op) == k && !(op.CreateOp? && op.res.Unlinked?) then [op] else []
  }

  ghost function On(ops: seq<Op>, k: nat): seq<Op> {
    if |ops| == 0 then []
    else OnOne(ops[0], k) + On(ops[1..], k)
  }

  lemma {:induction false} OnAppend(x: seq<Op>, y: seq<Op>, k: nat)
    ensures On(x + y, k) == On(x, k) + On(y, k)
  {
    if |x| == 0 {
      assert x + y == y;
    } else {
      assert (x + y)[0] == x[0] && (x + y)[1..] == x[1..] + y;
      OnAppend(x[1..], y, k);
    }
  }

  lemma OnNone()
    ensures forall k :: On([], k) == []
  {
  }

  lemma OnCons(op: Op, ops: seq<Op>)
    ensures forall k :: On([op] + ops, k) == OnOne(op, k) + On(ops, k)
  {
    assert ([op] + ops)[1..] == ops;
  }

  // The numbers of creations that found no room are those of no object.
  ghost predicate Refused(ops: seq<Op>, t: State) {
    forall op :: op in ops && op.CreateOp? && op.res.NoRoom? ==> op.ino !in t
  }

  // An operation on an object of o does the same whatever other objects r there are.
  lemma OnTop(r: State, o: State, op: Op)
    requires r.Keys !! o.Keys && Main(op) in o && !op.RootOp?
    requires op.CreateOp? ==> op.ino !in r
    ensures Enabled(r + o, op) <==> Enabled(o, op)
    ensures Enabled(o, op) ==> Apply(r + o, op) == r + Apply(o, op) && r.Keys !! Apply(o, op).Keys
  {
  }

  lemma {:induction false} RunOnTop(r: State, o: State, ops: seq<Op>)
    requires IsRun(o, ops) && r.Keys !! After(o, ops).Keys && Refused(ops, r)
    requires forall op :: op in ops ==> !op.RootOp?
    ensures IsRun(r + o, ops) && After(r + o, ops) == r + After(o, ops)
    decreases |ops|
  {
    hide Enabled, Apply;
    KeysGrow(o, ops);
    if |ops| > 0 {
      var op := ops[0];
      KeysGrow(Apply(o, op), ops[1..]);
      Touches(o, op);
      OnTop(r, o, op);
      RunOnTop(r, Apply(o, op), ops[1..]);
    }
  }

  lemma Touches(s: State, op: Op)
    requires Enabled(s, op) && !op.RootOp?
    ensures Main(op) in s
    ensures s.Keys <= Apply(s, op).Keys && (op.CreateOp? && !op.res.NoRoom? ==> op.ino in Apply(s, op))
  {
  }

  // A run over the objects of both r and o is a run over those of r and one over those of o.
  ghost predicate SplitInto(r: State, o: State, ops: seq<Op>, rest: seq<Op>, own: seq<Op>) {
    && r.Keys !! o.Keys && IsRun(r + o, ops) && IsRun(r, rest) && IsRun(o, own)
    && After(r, rest).Keys !! After(o, own).Keys && After(r + o, ops) == After(r, rest) + After(o, own)
    && multiset(ops) == multiset(rest) + multiset(own) && KeepsOrder(ops, rest, own, After(r, rest), After(o, own))
  }

  // No object is found on both sides, so all objects see their operations in the old order.
  ghost predicate KeepsOrder(ops: seq<Op>, rest: seq<Op>, own: seq<Op>, r: State, o: State) {
    forall k :: On(ops, k) == On(rest, k) + On(own, k) &&
      (On(own, k) != [] ==> k in o) && (On(rest, k) != [] ==> k in r)
  }

  lemma OwnOrder(op: Op, ops: seq<Op>, rest: seq<Op>, own: seq<Op>, r: State, o: State)
    requires KeepsOrder(ops, rest, own, r, o) && Main(op) in o && r.Keys !! o.Keys
    ensures KeepsOrder([op] + ops, rest, [op] + own, r, o)
  {
    hide On;
    OnCons(op, ops);
    OnCons(op, own);
    OnOnly(op);
  }

  lemma RestOrder(op: Op, ops: seq<Op>, rest: seq<Op>, own: seq<Op>, r: State, o: State)
    requires KeepsOrder(ops, rest, own, r, o) && Main(op) in r
    ensures KeepsOrder([op] + ops, [op] + rest, own, r, o)
  {
    hide On;
    OnCons(op, ops);
    OnCons(op, rest);
    OnOnly(op);
  }

  lemma {:induction false} Split(r: State, o: State, ops: seq<Op>) returns (rest: seq<Op>, own: seq<Op>)
    requires r.Keys !! o.Keys && IsRun(r + o, ops) && forall op :: op in ops ==> !op.RootOp?
    ensures SplitInto(r, o, ops, rest, own)
    decreases |ops|
  {
    hide Enabled, Apply, On, SplitInto;
    rest, own := [], [];
    if |ops| == 0 {
      assert SplitInto(r, o, ops, rest, own) by { NothingSplit(r, o); }
    } else {
      var op := ops[0];
      assert ops == [op] + ops[1..];
      Touches(r + o, op);
      if op.CreateOp? { NewNumber(r + o, op); }
      if Main(op) in o {
        OnTop(r, o, op);
        rest, own := Split(r, Apply(o, op), ops[1..]);
        OwnFirst(r, o, op, ops[1..], rest, own);
        own := [op] + own;
      } else {
        OnTop(o, r, op);
        assert r + o == o + r && o + Apply(r, op) == Apply(r, op) + o;
        rest, own := Split(Apply(r, op), o, ops[1..]);
        RestFirst(r, o, op, ops[1..], rest, own);
        rest := [op] + rest;
      }
    }
  }

  lemma NothingSplit(r: State, o: State)
    requires r.Keys !! o.Keys
    ensures SplitInto(r, o, [], [], [])
  {
  }

  lemma OwnFirst(r: State, o: State, op: Op, ops: seq<Op>, rest: seq<Op>, own: seq<Op>)
    requires Enabled(o, op) && Enabled(r + o, op) && Main(op) in o && r.Keys !! o.Keys && !op.RootOp?
    requires Apply(r + o, op) == r + Apply(o, op) && SplitInto(r, Apply(o, op), ops, rest, own)
    ensures SplitInto(r, o, [op] + ops, rest, [op] + own)
  {
    hide Enabled, Apply, KeepsOrder, IsRun, After;
    FirstOp(r + o, op, ops);
    FirstOp(o, op, own);
    Touches(o, op);
    KeysGrow(Apply(o, op), own);
    OwnOrder(op, ops, rest, own, After(r, rest), After(o, [op] + own));
  }

  lemma RestFirst(r: State, o: State, op: Op, ops: seq<Op>, rest: seq<Op>, own: seq<Op>)
    requires Enabled(r, op) && Enabled(r + o, op) && Main(op) in r && r.Keys !! o.Keys && !op.RootOp?
    requires Apply(r + o, op) == Apply(r, op) + o && SplitInto(Apply(r, op), o, ops, rest, own)
    ensures SplitInto(r, o, [op] + ops, [op] + rest, own)
  {
    hide Enabled, Apply, KeepsOrder, IsRun, After;
    FirstOp(r + o, op, ops);
    FirstOp(r, op, rest);
    Touches(r, op);
    KeysGrow(Apply(r, op), rest);
    RestOrder(op, ops, rest, own, After(r, [op] + rest), After(o, own));
  }

  lemma OnOnly(op: Op)
    ensures forall k :: OnOne(op, k) != [] ==> k == Main(op)
  {
  }

  lemma NewNumber(s: State, op: Op)
    requires Enabled(s, op) && op.CreateOp?
    ensures op.ino !in s
  {
  }

  // The naming of an object that was made earlier: the same as if all of its creation, and what was
  // done with the object, had happened only now.
  lemma NamedLast(r: State, a: nat, h: Half, ops: seq<Op>) returns (ops': seq<Op>)
    requires h.parent in r && r[h.parent].Members? && a !in r && IsRun(r + map[a := Blank(h.isDir)], ops)
    requires Refused(ops, After(r + map[a := Blank(h.isDir)], ops)) && forall op :: op in ops ==> !op.RootOp?
    ensures var t := After(r + map[a := Blank(h.isDir)], ops);
      && h.parent in t && t[h.parent].Members?
      && IsRun(r, ops') && After(r, ops') == WithChild(t, h.parent, a)
    ensures multiset(ops') == multiset(ops) + multiset{NamedOp(a, h)}
    ensures forall k :: On(ops', k) == On(ops, k) + OnOne(NamedOp(a, h), k)
  {
    hide After, IsRun, Enabled, Apply, On;
    var o, named := map[a := Blank(h.isDir)], NamedOp(a, h);
    var rest, own := Split(r, o, ops);
    var r1 := After(r, rest);
    ChildrenGrow(r, rest, h.parent);
    KeysGrow(r, rest);
    KeysGrow(o, own);
    forall op | op in own ensures op in ops {
      assert op in multiset(own) && op in multiset(ops);
    }
    RunOnTop(WithChild(r1, h.parent, a), o, own);
    Named(r1, a, h);
    FirstOp(r1, named, own);
    RunsAppend(r, rest, [named] + own);
    ops' := rest + ([named] + own);
    OnMoved(ops, rest, named, own);
  }

  lemma OnMoved(ops: seq<Op>, rest: seq<Op>, named: Op, own: seq<Op>)
    requires forall k :: On(ops, k) == On(rest, k) + On(own, k)
    requires On(own, Main(named)) == []
    ensures forall k :: On(rest + ([named] + own), k) == On(ops, k) + OnOne(named, k)
  {
    hide On;
    forall k ensures On(rest + ([named] + own), k) == On(ops, k) + OnOne(named, k) {
      OnAppend(rest, [named] + own, k);
      OnCons(named, own);
    }
  }

  lemma NamedLate(s: State, ops: seq<Op>, a: nat, h: Half) returns (ops': seq<Op>)
    requires IsRun(s, ops) && HalfOp(a, h) in ops && Refused(ops, After(s, ops))
    requires forall op :: op in ops ==> !op.RootOp?
    ensures var t := After(s, ops);
      && h.parent in t && t[h.parent].Members?
      && IsRun(s, ops') && After(s, ops') == WithChild(t, h.parent, a)
    ensures multiset(ops') == multiset(ops) - multiset{HalfOp(a, h)} + multiset{NamedOp(a, h)}
    ensures forall k :: On(ops', k) == On(ops, k) + OnOne(NamedOp(a, h), k)
  {
    hide After, IsRun, Enabled, Apply, On;
    var j :| 0 <= j < |ops| && ops[j] == HalfOp(a, h);
    var pre, suf := ops[..j], ops[j + 1..];
    assert ops == pre + ([ops[j]] + suf);
    RunsAppend(s, pre, [ops[j]] + suf);
    FirstOp(After(s, pre), ops[j], suf);
    Unnamed(After(s, pre), a, h);
    var suf' := NamedLast(After(s, pre), a, h, suf);
    ops' := pre + suf';
    RunsAppend(s, pre, suf');
    forall k ensures On(ops', k) == On(ops, k) + OnOne(NamedOp(a, h), k) {
      OnAppend(pre, [ops[j]] + suf, k);
      OnCons(ops[j], suf);
      OnAppend(pre, suf', k);
    }
  }

  lemma FirstOp(s: State, op: Op, ops: seq<Op>)
    ensures IsRun(s, [op] + ops) <==> Enabled(s, op) && IsRun(Apply(s, op), ops)
    ensures IsRun(s, [op] + ops) ==> After(s, [op] + ops) == After(Apply(s, op), ops)
  {
    assert ([op] + ops)[1..] == ops;
  }

  lemma Unnamed(s: State, a: nat, h: Half)
    requires Enabled(s, HalfOp(a, h))
    ensures h.parent in s && s[h.parent].Members? && a !in s
    ensures Apply(s, HalfOp(a, h)) == s + map[a := Blank(h.isDir)]
  {
  }

  lemma Named(s: State, a: nat, h: Half)
    requires h.parent in s && s[h.parent].Members? && a !in s
    ensures Enabled(s, NamedOp(a, h))
    ensures Apply(s, NamedOp(a, h)) == WithChild(s, h.parent, a) + map[a := Blank(h.isDir)]
  {
  }

  // The run so far with the same operations, those under way included, and the same effect.
  ghost predicate Serial(s: State, done: seq<Op>, ops: seq<Op>, m: Moment) {
    && IsRun(s, ops) && After(s, ops) == m.s && Refused(ops, m.s) && SameOps(done, ops, m.half)
    && forall op :: op in ops ==> !op.RootOp? && (op.CreateOp? ==> op.ino in m.used)
  }

  ghost predicate SameOps(done: seq<Op>, ops: seq<Op>, half: map<nat, Half>) {
    multiset(ops) == multiset(done) + multiset(UnderWay(half)) && forall k :: On(ops, k) == On(done, k)
  }

  lemma SameWhole(done: seq<Op>, ops: seq<Op>, half: map<nat, Half>, op: Op)
    requires SameOps(done, ops, half)
    ensures SameOps(done + [op], ops + [op], half)
  {
    hide On, UnderWay;
    OnSnoc(ops, op);
    OnSnoc(done, op);
  }

  lemma SameInsert(done: seq<Op>, ops: seq<Op>, half: map<nat, Half>, a: nat, h: Half)
    requires SameOps(done, ops, half) && a !in half
    ensures SameOps(done, ops + [HalfOp(a, h)], half[a := h])
  {
    hide On, UnderWay;
    HalfIn(half, a, h);
    OnSnoc(ops, HalfOp(a, h));
  }

  lemma SameName(done: seq<Op>, ops: seq<Op>, half: map<nat, Half>, a: nat)
    requires SameOps(done, ops, half) && a in half
    ensures HalfOp(a, half[a]) in ops && SameOps(done + [HalfOp(a, half[a])], ops, half - {a})
  {
    hide On, UnderWay;
    HalfIn(half, a, half[a]);
    OnSnoc(done, HalfOp(a, half[a]));
    assert HalfOp(a, half[a]) in multiset(ops);
  }

  lemma SameNamed(done: seq<Op>, ops: seq<Op>, ops': seq<Op>, half: map<nat, Half>, a: nat)
    requires SameOps(done, ops, half) && a in half
    requires multiset(ops') == multiset(ops) - multiset{HalfOp(a, half[a])} + multiset{NamedOp(a, half[a])}
    requires forall k :: On(ops', k) == On(ops, k) + OnOne(NamedOp(a, half[a]), k)
    ensures SameOps(done + [NamedOp(a, half[a])], ops', half - {a})
  {
    hide On, UnderWay;
    HalfIn(half, a, half[a]);
    OnSnoc(done, NamedOp(a, half[a]));
  }

  lemma HalfIn(half: map<nat, Half>, a: nat, h: Half)
    ensures a !in half ==> UnderWay(half[a := h]) == UnderWay(half) + {HalfOp(a, h)} && HalfOp(a, h) !in UnderWay(half)
    ensures a in half ==> UnderWay(half - {a}) == UnderWay(half) - {HalfOp(a, half[a])}
    ensures a in half ==> HalfOp(a, half[a]) in UnderWay(half)
  {
    var op := HalfOp(a, h);
    if a !in half {
      forall x ensures x in UnderWay(half[a := h]) <==> x in UnderWay(half) + {op} {
        if x in UnderWay(half) {
          var k :| k in half && x == HalfOp(k, half[k]);
          assert k in half[a := h] && half[a := h][k] == half[k];
        }
        if x == op { assert a in half[a := h]; }
      }
    } else {
      forall x ensures x in UnderWay(half - {a}) <==> x in UnderWay(half) - {HalfOp(a, half[a])} {
        if x in UnderWay(half) && x != HalfOp(a, half[a]) {
          var k :| k in half && x == HalfOp(k, half[k]);
          assert k in half - {a};
        }
      }
    }
  }

  lemma SerialStep(s: State, done: seq<Op>, ops: seq<Op>, m: Moment, x: Section) returns (ops': seq<Op>)
    requires Sound(m) && Possible(m, x) && Serial(s, done, ops, m)
    ensures Serial(s, done + Answer(m, x), ops', Advance(m, x))
  {
    hide After, IsRun, Enabled, Apply, Serial;
    match x
    case Whole(op) =>
      ops' := SerialWhole(s, done, ops, m, op);
    case Insert(parent, ino, isDir, room) =>
      ops' := SerialInsert(s, done, ops, m, parent, ino, isDir, room);
    case Name(ino, ok) =>
      ops' := SerialName(s, done, ops, m, ino, ok);
  }

  lemma SerialWhole(s: State, done: seq<Op>, ops: seq<Op>, m: Moment, op: Op) returns (ops': seq<Op>)
    requires Sound(m) && Possible(m, Whole(op)) && Serial(s, done, ops, m)
    ensures Serial(s, done + [op], ops', Advance(m, Whole(op)))
  {
    hide After, IsRun, Enabled, SameOps;
    ops' := Attach(s, ops, op);
    SameWhole(done, ops, m.half, op);
    assert Apply(m.s, op).Keys == m.s.Keys by { KeysKept(m.s, op); }
  }

  lemma KeysKept(s: State, op: Op)
    requires Enabled(s, op) && (op.WriteOp? || op.ReadOp? || op.ListOp?)
    ensures Apply(s, op).Keys == s.Keys
  {
  }

  lemma SerialInsert(s: State, done: seq<Op>, ops: seq<Op>, m: Moment, parent: nat, ino: nat, isDir: bool, room: bool)
    returns (ops': seq<Op>)
    requires Sound(m) && Possible(m, Insert(parent, ino, isDir, room)) && Serial(s, done, ops, m)
    ensures var x := Insert(parent, ino, isDir, room); Serial(s, done + Answer(m, x), ops', Advance(m, x))
  {
    hide After, IsRun, SameOps;
    var op := CreateOp(parent, ino, isDir, if room then Unlinked else NoRoom);
    ops' := Attach(s, ops, op);
    if room { SameInsert(done, ops, m.half, ino, Half(parent, isDir)); } else { SameWhole(done, ops, m.half, op); }
    assert done + [] == done;
  }

  lemma SerialName(s: State, done: seq<Op>, ops: seq<Op>, m: Moment, ino: nat, ok: bool) returns (ops': seq<Op>)
    requires Sound(m) && Possible(m, Name(ino, ok)) && Serial(s, done, ops, m)
    ensures var x := Name(ino, ok); Serial(s, done + Answer(m, x), ops', Advance(m, x))
  {
    hide After, IsRun, Enabled, Apply, SameOps, On;
    var h := m.half[ino];
    SameName(done, ops, m.half, ino);
    ops' := ops;
    if ok {
      ops' := NamedLate(s, ops, ino, h);
      SameNamed(done, ops, ops', m.half, ino);
      forall op | op in ops' ensures op == NamedOp(ino, h) || op in ops {
        assert op in multiset(ops');
      }
    }
  }

  lemma OnSnoc(ops: seq<Op>, op: Op)
    ensures forall k :: On(ops + [op], k) == On(ops, k) + OnOne(op, k)
  {
    forall k ensures On(ops + [op], k) == On(ops, k) + OnOne(op, k) {
      OnAppend(ops, [op], k);
      OnCons(op, []);
      assert [op] + [] == [op];
    }
  }

  lemma Attach(s: State, ops: seq<Op>, op: Op) returns (ops': seq<Op>)
    requires IsRun(s, ops) && Enabled(After(s, ops), op)
    ensures ops' == ops + [op] && IsRun(s, ops') && After(s, ops') == Apply(After(s, ops), op)
  {
    ops' := ops + [op];
    RunsAppend(s, ops, [op]);
    FirstOp(After(s, ops), op, []);
    assert [op] + [] == [op];
  }

  // Whatever any number of threads do, section by section: the state they come to is one to which
  // a run leads that has exactly their operations with their outcomes, one after the other.
  lemma {:induction false} Serializable(s: State, done: seq<Op>, ops: seq<Op>, m: Moment, xs: seq<Section>)
    returns (ops': seq<Op>)
    requires Sound(m) && Trace(m, xs) && Serial(s, done, ops, m)
    ensures Serial(s, done + Answers(m, xs), ops', Final(m, xs))
    decreases |xs|
  {
    hide Serial, Sound, Possible, Advance, Answer;
    ops' := ops;
    if |xs| > 0 {
      var n := Advance(m, xs[0]);
      ops' := SerialStep(s, done, ops, m, xs[0]);
      ops' := Serializable(s, done + Answer(m, xs[0]), ops', n, xs[1..]);
      assert done + Answers(m, xs) == done + Answer(m, xs[0]) + Answers(n, xs[1..]);
    } else {
      assert done + Answers(m, xs) == done;
    }
  }

  lemma Interleaved(m: Moment, xs: seq<Section>)
    requires Sound(m) && m.half == map[] && Trace(m, xs)
    ensures exists ops ::
      && IsRun(m.s, ops) && After(m.s, ops) == Final(m, xs).s
      && multiset(ops) == multiset(Answers(m, xs)) + multiset(UnderWay(Final(m, xs).half))
      && forall k :: On(ops, k) == On(Answers(m, xs), k)
  {
    assert UnderWay(map[]) == {};
    var ops := Serializable(m.s, [], [], m, xs);
    assert [] + Answers(m, xs) == Answers(m, xs);
  }

  // The operation that is over with a section acts on an object that has its name.
  ghost predicate Settled(m: Moment, x: Section)
    requires Possible(m, x)
  {
    forall op :: op in Answer(m, x) ==> Main(op) !in m.half
  }

  ghost predicate AllSettled(m: Moment, xs: seq<Section>)
    requires Sound(m) && Trace(m, xs)
    decreases |xs|
  {
    |xs| == 0 || (Settled(m, xs[0]) && AllSettled(Advance(m, xs[0]), xs[1..]))
  }

  // The state without the objects that are not named yet.
  ghost function Shown(m: Moment): State {
    m.s - m.half.Keys
  }

  ghost predicate Untouched(m: Moment) {
    forall a :: a in m.half && a in m.s ==> m.s[a] == Blank(m.half[a].isDir)
  }

  lemma SettledStep(m: Moment, x: Section)
    requires Sound(m) && Possible(m, x) && Untouched(m)
    ensures Settled(m, x) ==>
      Untouched(Advance(m, x)) && IsRun(Shown(m), Answer(m, x)) &&
      After(Shown(m), Answer(m, x)) == Shown(Advance(m, x))
    ensures !Settled(m, x) ==> |Answer(m, x)| == 1 && !Enabled(Shown(m), Answer(m, x)[0])
  {
    hide After, IsRun;
    var n := Advance(m, x);
    assert IsRun(Shown(m), []) && After(Shown(m), []) == Shown(m) by { NoOps(Shown(m)); }
    if !Settled(m, x) {
      if Enabled(Shown(m), Answer(m, x)[0]) { Touches(Shown(m), Answer(m, x)[0]); }
    } else if Answer(m, x) == [] {
      assert Shown(n) == Shown(m);
    } else {
      var op := Answer(m, x)[0];
      assert op in Answer(m, x);
      FirstOp(Shown(m), op, []);
      NoOps(Apply(Shown(m), op));
      assert Answer(m, x) == [op] + [];
      assert Enabled(Shown(m), op);
      assert Apply(Shown(m), op) == Shown(n);
    }
  }

  lemma NoOps(s: State)
    ensures IsRun(s, []) && After(s, []) == s
  {
  }

  // The operations are a run in the very order in which they were over exactly when none of them
  // acted on an object before it was named. The run leads to all objects with a name.
  lemma {:induction false} OrderKept(m: Moment, xs: seq<Section>)
    requires Sound(m) && Trace(m, xs) && Untouched(m)
    ensures IsRun(Shown(m), Answers(m, xs)) <==> AllSettled(m, xs)
    ensures AllSettled(m, xs) ==> After(Shown(m), Answers(m, xs)) == Shown(Final(m, xs))
    decreases |xs|
  {
    hide Sound, Possible, Advance, Answer, Settled, Untouched, Shown, Enabled, Apply;
    if |xs| > 0 {
      var n := Advance(m, xs[0]);
      SettledStep(m, xs[0]);
      RunsAppend(Shown(m), Answer(m, xs[0]), Answers(n, xs[1..]));
      if Settled(m, xs[0]) {
        OrderKept(n, xs[1..]);
      } else {
        assert Answer(m, xs[0]) == [Answer(m, xs[0])[0]] + [];
        FirstOp(Shown(m), Answer(m, xs[0])[0], []);
      }
    }
  }

  // In general the order is lost between objects: here file 2 is written before it is named, and
  // the creation of file 3 in the same directory comes in between. The write was over before that
  // creation began; in the only run that does the same it comes last.
  const WRITE := WriteOp(2, [9], 0, true)
  const EARLY := NamedOp(2, Half(1, false))
  const LATE := NamedOp(3, Half(1, false))
  const OVERLAP := [Insert(1, 2, false, true), Whole(WRITE), Insert(1, 3, false, true), Name(3, true), Name(2, true)]

  const START := Moment(map[1 := Members([])], {1}, map[])

  lemma OrderLost(ops: seq<Op>)
    ensures Sound(START) && Trace(START, OVERLAP) && Answers(START, OVERLAP) == [WRITE, LATE, EARLY]
    ensures multiset(ops) == multiset{WRITE, LATE, EARLY} && IsRun(START.s, ops)
      && After(START.s, ops) == Final(START, OVERLAP).s
      ==> ops == [LATE, EARLY, WRITE]
  {
    hide IsRun, After;
    OverlapTrace();
    if multiset(ops) == multiset{WRITE, LATE, EARLY} && IsRun(START.s, ops)
      && After(START.s, ops) == Final(START, OVERLAP).s
    {
      OnlyOrder(ops);
    }
  }

  lemma Three(ops: seq<Op>, x: Op, y: Op, z: Op)
    requires multiset(ops) == multiset{x, y, z} && x != y && y != z && x != z
    ensures |ops| == 3 && ops[0] in {x, y, z} && ops[1] in {x, y, z} && ops[2] in {x, y, z}
    ensures ops[0] != ops[1] && ops[1] != ops[2] && ops[0] != ops[2] && ops == [ops[0]] + ([ops[1]] + [ops[2]])
  {
    assert |ops| == |multiset(ops)| == 3;
    var a, b, c := ops[0], ops[1], ops[2];
    assert ops == [a, b, c];
    assert a in multiset(ops) && b in multiset(ops) && c in multiset(ops);
    assert multiset(ops)[a] == 1 && multiset(ops)[b] == 1;
  }

  lemma EarlyFirst(ops: seq<Op>)
    requires IsRun(START.s, [EARLY] + ops)
    ensures var t := After(START.s, [EARLY] + ops);
      1 in t && t[1].Members? && |t[1].kids| > 0 && t[1].kids[0] == 2
  {
    hide IsRun, After;
    FirstOp(START.s, EARLY, ops);
    var s1 := Apply(START.s, EARLY);
    assert s1[1] == Members([2]);
    ChildrenGrow(s1, ops, 1);
  }

  lemma OnlyOrder(ops: seq<Op>)
    requires multiset(ops) == multiset{WRITE, LATE, EARLY} && IsRun(START.s, ops)
    requires 1 in After(START.s, ops) && After(START.s, ops)[1] == Members([3, 2])
    ensures ops == [LATE, EARLY, WRITE]
  {
    hide IsRun, After;
    Three(ops, WRITE, LATE, EARLY);
    var s1 := Apply(START.s, ops[0]);
    FirstOp(START.s, ops[0], [ops[1]] + [ops[2]]);
    FirstOp(s1, ops[1], [ops[2]]);
    if ops[0] == EARLY { EarlyFirst([ops[1]] + [ops[2]]); }
  }

  lemma OverlapTrace()
    ensures Sound(START) && Trace(START, OVERLAP) && Answers(START, OVERLAP) == [WRITE, LATE, EARLY]
    ensures 1 in Final(START, OVERLAP).s && Final(START, OVERLAP).s[1] == Members([3, 2])
  {
    hide Trace, Answers, Final;
    var m1 := Advance(START, OVERLAP[0]);
    var m2 := Advance(m1, OVERLAP[1]);
    var m3 := Advance(m2, OVERLAP[2]);
    var m4 := Advance(m3, OVERLAP[3]);
    var m5 := Advance(m4, OVERLAP[4]);
    assert m3.s[1] == Members([]) && m4.s[1] == Members([3]) && m5.s[1] == Members([3, 2]);
    NoSections(m5);
    FirstSection(m4, OVERLAP[4], []);
    FirstSection(m3, OVERLAP[3], [OVERLAP[4]] + []);
    FirstSection(m2, OVERLAP[2], [OVERLAP[3]] + ([OVERLAP[4]] + []));
    FirstSection(m1, OVERLAP[1], [OVERLAP[2]] + ([OVERLAP[3]] + ([OVERLAP[4]] + [])));
    FirstSection(START, OVERLAP[0], [OVERLAP[1]] + ([OVERLAP[2]] + ([OVERLAP[3]] + ([OVERLAP[4]] + []))));
    assert OVERLAP == [OVERLAP[0]] + ([OVERLAP[1]] + ([OVERLAP[2]] + ([OVERLAP[3]] + ([OVERLAP[4]] + []))));
  }

  lemma NoSections(m: Moment)
    requires Sound(m)
    ensures Trace(m, []) && Answers(m, []) == [] && Final(m, []) == m
  {
  }

  lemma FirstSection(m: Moment, x: Section, xs: seq<Section>)
    requires Sound(m) && Possible(m, x) && Trace(Advance(m, x), xs)
    ensures Trace(m, [x] + xs) && Final(m, [x] + xs) == Final(Advance(m, x), xs)
    ensures Answers(m, [x] + xs) == Answer(m, x) + Answers(Advance(m, x), xs)
  {
    assert ([x] + xs)[1..] == xs;
  }
}
