// Runs of the abstract file system: what any sequence of operations keeps.

module Runs {
  import opened Disks
  import opened Streams
  import opened RegularFiles
  import opened Listings
  import opened Worlds

  // An operation together with its outcome.
  datatype Op =
    | WriteOp(ino: nat, input: seq<Byte>, pos: nat, ok: bool)
    | CreateOp(parent: nat, ino: nat, isDir: bool, res: Made)
    | RootOp(ino: nat)
    | ReadOp(ino: nat, count: nat, pos: nat, out: seq<Byte>)
    | ListOp(ino: nat, accept: Consumer, from: nat, items: seq<Item>, to: nat)

  // Halted stands for the BUG() of an insertion that runs out of sectors half way: no run goes on
  // from there.
  datatype Made = Created | Unlinked | NoRoom | Halted

  type State = map<nat, Value>

  function Blank(isDir: bool): Value {
    if isDir then Members([]) else Content([])
  }

  ghost predicate Enabled(s: State, op: Op) {
    match op
    case WriteOp(ino, input, pos, ok) => ino in s && s[ino].Content?
    case CreateOp(parent, ino, isDir, res) => !res.Halted? && parent in s && s[parent].Members? && ino !in s
    case RootOp(ino) => ino !in s
    case ReadOp(ino, count, pos, out) => ino in s && s[ino].Content? && out == Part(s[ino].bytes, pos, count)
    case ListOp(ino, accept, from, out, to) =>
      ino in s && s[ino].Members? && Round(Items(s[ino].kids), accept, from, out, to)
  }

  ghost function Apply(s: State, op: Op): State {
    if !Enabled(s, op) then s else
    match op
    case WriteOp(ino, input, pos, ok) =>
      if ok && input != [] then s[ino := Content(Overwrite(s[ino].bytes, Min(pos, |s[ino].bytes|), input))] else s
    case CreateOp(parent, ino, isDir, res) =>
      (match res
       case Halted => s
       case NoRoom => s
       case Unlinked => s[ino := Blank(isDir)]
       case Created => s[ino := Blank(isDir)][parent := Members(s[parent].kids + [ino])])
    case RootOp(ino) => s[ino := Members([])]
    case ReadOp(_, _, _, _) => s
    case ListOp(_, _, _, _, _) => s
  }

  // A run from s: each operation is possible where it comes.
  ghost predicate IsRun(s: State, ops: seq<Op>)
    decreases |ops|
  {
    |ops| == 0 || (Enabled(s, ops[0]) && IsRun(Apply(s, ops[0]), ops[1..]))
  }

  ghost function After(s: State, ops: seq<Op>): State
    requires IsRun(s, ops)
    decreases |ops|
  {
    if |ops| == 0 then s else After(Apply(s, ops[0]), ops[1..])
  }

  // An object no operation of the run writes or adds to keeps its value, and none disappears.
  lemma {:induction false} UntouchedKept(s: State, ops: seq<Op>, k: nat)
    requires IsRun(s, ops) && k in s
    requires forall i :: 0 <= i < |ops| ==>
      !(ops[i].WriteOp? && ops[i].ino == k) && !(ops[i].CreateOp? && ops[i].parent == k)
    ensures k in After(s, ops) && After(s, ops)[k] == s[k]
    decreases |ops|
  {
    if |ops| > 0 {
      assert forall i :: 0 <= i < |ops[1..]| ==> ops[1..][i] == ops[i + 1];
      UntouchedKept(Apply(s, ops[0]), ops[1..], k);
    }
  }

  // Read undoes write: whatever happens to other objects in between, reading a file where it was
  // last written gives back what was written, and everything around it is as before.
  lemma WriteThenRead(s: State, ops: seq<Op>, k: nat, input: seq<Byte>, pos: nat)
    requires IsRun(s, [WriteOp(k, input, pos, true)] + ops) && input != []
    requires forall i :: 0 <= i < |ops| ==>
      !(ops[i].WriteOp? && ops[i].ino == k) && !(ops[i].CreateOp? && ops[i].parent == k)
    ensures var t := After(s, [WriteOp(k, input, pos, true)] + ops);
      && k in s && s[k].Content? && k in t && t[k].Content?
      && var p := Min(pos, |s[k].bytes|);
         Part(t[k].bytes, p, |input|) == input && |t[k].bytes| == Max(|s[k].bytes|, p + |input|)
         && Part(t[k].bytes, 0, p) == Part(s[k].bytes, 0, p)
         && forall i :: p + |input| <= i < |s[k].bytes| ==> t[k].bytes[i] == s[k].bytes[i]
  {
    var all := [WriteOp(k, input, pos, true)] + ops;
    assert all[1..] == ops;
    var u := Apply(s, all[0]);
    UntouchedKept(u, ops, k);
    var was := s[k].bytes;
    ReadBack(was, Min(pos, |was|), input);
    DrainPart(u[k].bytes, Min(pos, |was|), |input|);
  }

  // Children are only ever added behind the others, so a listing that goes on later still fits.
  lemma {:induction false} ChildrenGrow(s: State, ops: seq<Op>, k: nat)
    requires IsRun(s, ops) && k in s && s[k].Members?
    ensures k in After(s, ops) && After(s, ops)[k].Members? && s[k].kids <= After(s, ops)[k].kids
    decreases |ops|
  {
    if |ops| > 0 {
      ChildrenGrow(Apply(s, ops[0]), ops[1..], k);
    }
  }

  // A name that was listed once stays in its directory, at its place.
  lemma CreatedStays(s: State, ops: seq<Op>, parent: nat, ino: nat, isDir: bool)
    requires IsRun(s, [CreateOp(parent, ino, isDir, Created)] + ops)
    ensures var t := After(s, [CreateOp(parent, ino, isDir, Created)] + ops);
      && parent in s && s[parent].Members? && parent in t && t[parent].Members?
      && var kids := s[parent].kids; kids + [ino] <= t[parent].kids
  {
    var all := [CreateOp(parent, ino, isDir, Created)] + ops;
    assert all[1..] == ops;
    ChildrenGrow(Apply(s, all[0]), ops, parent);
  }

  // The listing calls of a run on one directory, each with the children it found.
  ghost function Calls(s: State, ops: seq<Op>, k: nat): seq<Call>
    requires IsRun(s, ops)
    decreases |ops|
  {
    if |ops| == 0 then [] else
      var rest := Calls(Apply(s, ops[0]), ops[1..], k);
      if ops[0].ListOp? && ops[0].ino == k
      then [Call(s[k].kids, ops[0].accept, ops[0].from, ops[0].items, ops[0].to)] + rest
      else rest
  }

  // Each of them goes on where the last one stopped; the first starts at a given position.
  ghost predicate Resumed(cs: seq<Call>, from: nat) {
    && (|cs| > 0 ==> cs[0].from == from)
    && forall i :: 0 < i < |cs| ==> cs[i].from == cs[i - 1].to
  }

  // They are rounds over lists that only grow.
  ghost predicate Growing(cs: seq<Call>, kids: seq<nat>) {
    && (|cs| > 0 ==> kids <= cs[0].kids)
    && (forall i :: 0 < i < |cs| ==> cs[i - 1].kids <= cs[i].kids)
    && (forall i :: 0 <= i < |cs| ==> Round(Items(cs[i].kids), cs[i].accept, cs[i].from, cs[i].out, cs[i].to))
  }

  lemma GrowingCons(c: Call, cs: seq<Call>, kids: seq<nat>)
    requires Growing(cs, c.kids) && kids <= c.kids && Round(Items(c.kids), c.accept, c.from, c.out, c.to)
    ensures Growing([c] + cs, kids)
  {
  }

  lemma GrowingLater(cs: seq<Call>, kids: seq<nat>, more: seq<nat>)
    requires Growing(cs, more) && kids <= more
    ensures Growing(cs, kids)
  {
  }

  lemma {:induction false} ListingsGrow(s: State, ops: seq<Op>, k: nat)
    requires IsRun(s, ops) && k in s && s[k].Members?
    ensures Growing(Calls(s, ops, k), s[k].kids)
    ensures k in After(s, ops) && After(s, ops)[k].Members?
    ensures var cs := Calls(s, ops, k); |cs| > 0 ==> cs[|cs| - 1].kids <= After(s, ops)[k].kids
    decreases |ops|
  {
    hide Round, Items, Growing;
    ChildrenGrow(s, ops, k);
    if |ops| == 0 {
      assert Growing([], s[k].kids) by { NothingGrows(s[k].kids); }
    } else {
      var t, op := Apply(s, ops[0]), ops[0];
      StepGrows(s, op, k);
      ListingsGrow(t, ops[1..], k);
      var rest := Calls(t, ops[1..], k);
      if op.ListOp? && op.ino == k {
        ChildrenGrow(t, ops[1..], k);
        GrowingCons(Call(s[k].kids, op.accept, op.from, op.items, op.to), rest, s[k].kids);
      } else {
        GrowingLater(rest, s[k].kids, t[k].kids);
      }
    }
  }

  lemma NothingGrows(kids: seq<nat>)
    ensures Growing([], kids)
  {
  }

  lemma StepGrows(s: State, op: Op, k: nat)
    requires Enabled(s, op) && k in s && s[k].Members?
    ensures k in Apply(s, op) && Apply(s, op)[k].Members? && s[k].kids <= Apply(s, op)[k].kids
    ensures op.ListOp? ==> Apply(s, op) == s
  {
  }

  // Listing calls scattered over a run, with creations and writes in between, give the dots and
  // the children in order up to the cursor, each once; all children of the directory at the time of
  // the last call, if that was not refused an item.
  lemma RunLists(s: State, ops: seq<Op>, k: nat)
    requires IsRun(s, ops) && k in s && s[k].Members?
    requires Resumed(Calls(s, ops, k), 0) && |Calls(s, ops, k)| > 0
    ensures var cs := Calls(s, ops, k); var c := cs[|cs| - 1];
      && k in After(s, ops) && After(s, ops)[k].Members? && c.kids <= After(s, ops)[k].kids
      && c.to <= |Items(c.kids)| && Given(cs) == Items(c.kids)[..c.to]
      && (c.to == |Items(c.kids)| || c.accept(c.out, Items(c.kids)[c.to]) ==> Given(cs) == Items(c.kids))
  {
    hide Round, Items;
    var cs := Calls(s, ops, k);
    ListingsGrow(s, ops, k);
    assert Session(cs);
    SessionGives(cs);
    var c := cs[|cs| - 1];
    if c.to == |Items(c.kids)| || c.accept(c.out, Items(c.kids)[c.to]) {
      SessionComplete(cs);
    }
  }
}
