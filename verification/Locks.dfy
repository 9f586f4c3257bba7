// The mutexes of the file system (sp.c, free_list.c): any number of threads running its
// operations, one lock action at a time.

module Locks {
  // spfs_inode.lock of one inode, spfs_btree.lock, spfs_free_list.lock, spfs_super_block.id_lock
  datatype Lock = InodeLock(ino: nat) | TreeLock | FreeLock | IdLock

  // The order in which locks may be taken on top of each other.
  function Level(l: Lock): nat {
    match l
    case InodeLock(_) => 0
    case TreeLock => 1
    case FreeLock => 2
    case IdLock => 3
  }

  // Use stands for reading or writing what the lock is there for: the inode and its blocks, the
  // nodes of the index and the inode blocks, the free list, the number counter.
  datatype Act = Acquire(lock: Lock) | Use(lock: Lock) | Release(lock: Lock)

  // What a thread holds and what it still does.
  datatype Thread = Thread(held: set<Lock>, todo: seq<Act>)

  // The lock actions of one operation; the numbers say how often the inner parts run.
  datatype Call =
    | Create(parent: nat, allocs: nat, inserted: bool, newBlock: bool)
    | Walk(parent: nat, lookups: nat)
    | Read(ino: nat)
    | Write(ino: nat, extended: bool, granted: bool)
    | Flush

  function Times(acts: seq<Act>, n: nat): seq<Act> {
    if n == 0 then [] else acts + Times(acts, n - 1)
  }

  function Enter(l: Lock): seq<Act> {
    [Acquire(l), Use(l)]
  }

  function Leave(l: Lock): seq<Act> {
    [Use(l), Release(l)]
  }

  function Briefly(l: Lock): seq<Act> {
    Enter(l) + Leave(l)
  }

  function If(c: bool, acts: seq<Act>): seq<Act> {
    if c then acts else []
  }

  // spfs_create and spfs_mkdir; spfs_lookup and spfs_iterate; spfs_read; spfs_write;
  // spfs_write_inode.
  function Acts(call: Call): seq<Act> {
    match call
    case Create(parent, allocs, inserted, newBlock) =>
      Briefly(IdLock) + (Enter(TreeLock) + (Times(Briefly(FreeLock), allocs) + (Leave(TreeLock) +
      If(inserted, Enter(InodeLock(parent)) + (If(newBlock, Briefly(FreeLock)) + Leave(InodeLock(parent)))))))
    case Walk(parent, lookups) =>
      Enter(InodeLock(parent)) + (Times(Briefly(TreeLock), lookups) + Leave(InodeLock(parent)))
    case Read(ino) => Briefly(InodeLock(ino))
    case Write(ino, extended, granted) =>
      Enter(InodeLock(ino)) + (If(extended, Briefly(FreeLock)) +
      (If(extended && granted, Briefly(TreeLock)) + Leave(InodeLock(ino))))
    case Flush => Briefly(TreeLock)
  }

  function Program(calls: seq<Call>): seq<Act> {
    if |calls| == 0 then [] else Acts(calls[0]) + Program(calls[1..])
  }

  // What a thread holds after some actions, if it always takes higher locks on top of lower ones
  // and releases what it holds.
  ghost predicate Climbs(held: set<Lock>, acts: seq<Act>)
    decreases |acts|
  {
    |acts| == 0 ||
    match acts[0]
    case Acquire(l) => (forall h :: h in held ==> Level(h) < Level(l)) && Climbs(held + {l}, acts[1..])
    case Use(l) => l in held && Climbs(held, acts[1..])
    case Release(l) => l in held && Climbs(held - {l}, acts[1..])
  }

  ghost function Holds(held: set<Lock>, acts: seq<Act>): set<Lock>
    decreases |acts|
  {
    if |acts| == 0 then held else
    match acts[0]
    case Acquire(l) => Holds(held + {l}, acts[1..])
    case Use(l) => Holds(held, acts[1..])
    case Release(l) => Holds(held - {l}, acts[1..])
  }

  lemma {:induction false} ClimbsAppend(held: set<Lock>, a: seq<Act>, b: seq<Act>)
    requires Climbs(held, a) && Climbs(Holds(held, a), b)
    ensures Climbs(held, a + b) && Holds(held, a + b) == Holds(Holds(held, a), b)
    decreases |a|
  {
    if |a| == 0 {
      assert a + b == b;
    } else {
      assert (a + b)[0] == a[0] && (a + b)[1..] == a[1..] + b;
      match a[0]
      case Acquire(l) => ClimbsAppend(held + {l}, a[1..], b);
      case Use(l) => ClimbsAppend(held, a[1..], b);
      case Release(l) => ClimbsAppend(held - {l}, a[1..], b);
    }
  }

  lemma EnterClimbs(held: set<Lock>, l: Lock)
    requires forall h :: h in held ==> Level(h) < Level(l)
    ensures Climbs(held, Enter(l)) && Holds(held, Enter(l)) == held + {l}
  {
    assert Enter(l)[1..] == [Use(l)] && [Use(l)][1..] == [] && Holds(held + {l}, []) == held + {l};
    assert Holds(held + {l}, [Use(l)]) == held + {l};
  }

  lemma LeaveClimbs(held: set<Lock>, l: Lock)
    requires l in held
    ensures Climbs(held, Leave(l)) && Holds(held, Leave(l)) == held - {l}
  {
    assert Leave(l)[1..] == [Release(l)] && [Release(l)][1..] == [] && Holds(held - {l}, []) == held - {l};
    assert Holds(held, [Release(l)]) == held - {l};
  }

  lemma BrieflyClimbs(held: set<Lock>, l: Lock)
    requires forall h :: h in held ==> Level(h) < Level(l)
    ensures Climbs(held, Briefly(l)) && Holds(held, Briefly(l)) == held
  {
    hide Climbs, Holds, Enter, Leave;
    EnterClimbs(held, l);
    LeaveClimbs(held + {l}, l);
    ClimbsAppend(held, Enter(l), Leave(l));
    assert held + {l} - {l} == held;
  }

  lemma {:induction false} TimesClimbs(held: set<Lock>, l: Lock, n: nat)
    requires forall h :: h in held ==> Level(h) < Level(l)
    ensures Climbs(held, Times(Briefly(l), n)) && Holds(held, Times(Briefly(l), n)) == held
  {
    if n > 0 {
      BrieflyClimbs(held, l);
      TimesClimbs(held, l, n - 1);
      ClimbsAppend(held, Briefly(l), Times(Briefly(l), n - 1));
    }
  }

  // Every operation takes its locks in order and gives all of them back.
  lemma CallClimbs(call: Call)
    ensures Climbs({}, Acts(call)) && Holds({}, Acts(call)) == {}
  {
    hide Climbs, Holds, Briefly, Enter, Leave, Times;
    match call
    case Create(parent, allocs, inserted, newBlock) => CreateClimbs(parent, allocs, inserted, newBlock);
    case Walk(parent, lookups) =>
      var i := InodeLock(parent);
      EnterClimbs({}, i);
      TimesClimbs({} + {i}, TreeLock, lookups);
      LeaveClimbs({} + {i}, i);
      ClimbsAppend({} + {i}, Times(Briefly(TreeLock), lookups), Leave(i));
      ClimbsAppend({}, Enter(i), Times(Briefly(TreeLock), lookups) + Leave(i));
    case Read(ino) => BrieflyClimbs({}, InodeLock(ino));
    case Write(ino, extended, granted) =>
      var i := InodeLock(ino);
      EnterClimbs({}, i);
      LeaveClimbs({} + {i}, i);
      IfClimbs({} + {i}, extended && granted, TreeLock);
      IfClimbs({} + {i}, extended, FreeLock);
      var z := If(extended && granted, Briefly(TreeLock)) + Leave(i);
      ClimbsAppend({} + {i}, If(extended && granted, Briefly(TreeLock)), Leave(i));
      ClimbsAppend({} + {i}, If(extended, Briefly(FreeLock)), z);
      ClimbsAppend({}, Enter(i), If(extended, Briefly(FreeLock)) + z);
    case Flush => BrieflyClimbs({}, TreeLock);
  }

  lemma IfClimbs(held: set<Lock>, c: bool, l: Lock)
    requires forall h :: h in held ==> Level(h) < Level(l)
    ensures Climbs(held, If(c, Briefly(l))) && Holds(held, If(c, Briefly(l))) == held
  {
    BrieflyClimbs(held, l);
  }

  lemma CreateClimbs(parent: nat, allocs: nat, inserted: bool, newBlock: bool)
    ensures var acts := Acts(Create(parent, allocs, inserted, newBlock)); Climbs({}, acts) && Holds({}, acts) == {}
  {
    hide Climbs, Holds, Briefly, Enter, Leave, Times, If;
    var i := InodeLock(parent);
    var add := Enter(i) + (If(newBlock, Briefly(FreeLock)) + Leave(i));
    EnterClimbs({}, i);
    IfClimbs({} + {i}, newBlock, FreeLock);
    LeaveClimbs({} + {i}, i);
    ClimbsAppend({} + {i}, If(newBlock, Briefly(FreeLock)), Leave(i));
    ClimbsAppend({}, Enter(i), If(newBlock, Briefly(FreeLock)) + Leave(i));
    MaybeClimbs(inserted, add);
    LeaveClimbs({} + {TreeLock}, TreeLock);
    ClimbsAppend({} + {TreeLock}, Leave(TreeLock), If(inserted, add));
    TimesClimbs({} + {TreeLock}, FreeLock, allocs);
    ClimbsAppend({} + {TreeLock}, Times(Briefly(FreeLock), allocs), Leave(TreeLock) + If(inserted, add));
    EnterClimbs({}, TreeLock);
    var tree := Times(Briefly(FreeLock), allocs) + (Leave(TreeLock) + If(inserted, add));
    ClimbsAppend({}, Enter(TreeLock), tree);
    BrieflyClimbs({}, IdLock);
    ClimbsAppend({}, Briefly(IdLock), Enter(TreeLock) + tree);
  }

  lemma MaybeClimbs(c: bool, acts: seq<Act>)
    requires Climbs({}, acts) && Holds({}, acts) == {} + {InodeLock(0)} - {InodeLock(0)}
    ensures Climbs({} + {TreeLock} - {TreeLock}, If(c, acts)) && Holds({} + {TreeLock} - {TreeLock}, If(c, acts)) == {}
  {
    assert {} + {TreeLock} - {TreeLock} == {};
  }

  lemma {:induction false} ProgramClimbs(calls: seq<Call>)
    ensures Climbs({}, Program(calls)) && Holds({}, Program(calls)) == {}
  {
    if |calls| > 0 {
      CallClimbs(calls[0]);
      ProgramClimbs(calls[1..]);
      ClimbsAppend({}, Acts(calls[0]), Program(calls[1..]));
    }
  }

  // All threads at once; no lock is held twice, and each thread goes on in order.
  ghost predicate Orderly(ts: seq<Thread>) {
    && (forall i :: 0 <= i < |ts| ==> Climbs(ts[i].held, ts[i].todo) && Holds(ts[i].held, ts[i].todo) == {})
    && (forall i, j :: 0 <= i < j < |ts| ==> ts[i].held !! ts[j].held)
    && (forall i, k, l :: 0 <= i < |ts| && k in ts[i].held && l in ts[i].held && k != l ==> Level(k) != Level(l))
  }

  predicate Free(ts: seq<Thread>, l: Lock) {
    forall j :: 0 <= j < |ts| ==> l !in ts[j].held
  }

  predicate CanStep(ts: seq<Thread>, i: nat) {
    i < |ts| && |ts[i].todo| > 0 && (ts[i].todo[0].Acquire? ==> Free(ts, ts[i].todo[0].lock))
  }

  function Step(ts: seq<Thread>, i: nat): seq<Thread>
    requires CanStep(ts, i)
  {
    var t := ts[i];
    var l := t.todo[0].lock;
    var held := match t.todo[0] case Acquire(_) => t.held + {l} case Use(_) => t.held case Release(_) => t.held - {l};
    ts[i := Thread(held, t.todo[1..])]
  }

  lemma StepOrderly(ts: seq<Thread>, i: nat)
    requires Orderly(ts) && CanStep(ts, i)
    ensures Orderly(Step(ts, i))
  {
    var us := Step(ts, i);
    StepClimbs(ts[i].held, ts[i].todo);
    hide Climbs, Holds;
    assert forall k :: 0 <= k < |ts| && k != i ==> us[k] == ts[k];
    assert us[i].held <= ts[i].held + if ts[i].todo[0].Acquire? then {ts[i].todo[0].lock} else {};
  }

  lemma StepClimbs(held: set<Lock>, acts: seq<Act>)
    requires Climbs(held, acts) && |acts| > 0
    ensures acts[0].Acquire? ==>
      && (forall h :: h in held ==> Level(h) < Level(acts[0].lock))
      && Climbs(held + {acts[0].lock}, acts[1..]) && Holds(held + {acts[0].lock}, acts[1..]) == Holds(held, acts)
    ensures acts[0].Use? ==> Climbs(held, acts[1..]) && Holds(held, acts[1..]) == Holds(held, acts)
    ensures acts[0].Release? ==>
      Climbs(held - {acts[0].lock}, acts[1..]) && Holds(held - {acts[0].lock}, acts[1..]) == Holds(held, acts)
  {
  }

  // A schedule names the thread that moves next.
  ghost predicate Schedule(ts: seq<Thread>, sched: seq<nat>)
    decreases |sched|
  {
    |sched| == 0 || (CanStep(ts, sched[0]) && Schedule(Step(ts, sched[0]), sched[1..]))
  }

  ghost function End(ts: seq<Thread>, sched: seq<nat>): seq<Thread>
    requires Schedule(ts, sched)
    decreases |sched|
  {
    if |sched| == 0 then ts else End(Step(ts, sched[0]), sched[1..])
  }

  lemma {:induction false} RunOrderly(ts: seq<Thread>, sched: seq<nat>)
    requires Orderly(ts) && Schedule(ts, sched)
    ensures Orderly(End(ts, sched)) && |End(ts, sched)| == |ts|
    decreases |sched|
  {
    if |sched| > 0 {
      StepOrderly(ts, sched[0]);
      RunOrderly(Step(ts, sched[0]), sched[1..]);
    }
  }

  // Follow a blocked thread to the holder of the lock it waits for, and so on: the ranks rise, so
  // this ends at a thread that can move.
  lemma {:induction false} FindRunnable(ts: seq<Thread>, i: nat) returns (j: nat)
    requires Orderly(ts) && i < |ts| && |ts[i].todo| > 0
    ensures CanStep(ts, j)
    decreases if ts[i].todo[0].Acquire? then 4 - Level(ts[i].todo[0].lock) else 5
  {
    j := i;
    if !CanStep(ts, i) {
      var l := ts[i].todo[0].lock;
      var k :| 0 <= k < |ts| && l in ts[k].held;
      assert l !in ts[i].held;
      assert |ts[k].todo| > 0;
      j := k;
      if !CanStep(ts, k) {
        assert Level(ts[k].todo[0].lock) > Level(l);
        j := FindRunnable(ts, k);
      }
    }
  }

  function Start(programs: seq<seq<Call>>): (ts: seq<Thread>)
    ensures |ts| == |programs|
  {
    seq(|programs|, i requires 0 <= i < |programs| => Thread({}, Program(programs[i])))
  }

  // Whatever operations any number of threads run and however they are scheduled, no reachable
  // state is deadlocked, and no thread holds two inode locks.
  lemma NoDeadlock(programs: seq<seq<Call>>, sched: seq<nat>)
    requires Schedule(Start(programs), sched)
    ensures var ts := End(Start(programs), sched);
      && ((exists i :: 0 <= i < |ts| && |ts[i].todo| > 0) ==> exists j :: CanStep(ts, j))
      && forall i, a, b :: 0 <= i < |ts| && InodeLock(a) in ts[i].held && InodeLock(b) in ts[i].held ==> a == b
  {
    var s := Start(programs);
    forall i | 0 <= i < |s| ensures Climbs(s[i].held, s[i].todo) && Holds(s[i].held, s[i].todo) == {} {
      ProgramClimbs(programs[i]);
    }
    RunOrderly(s, sched);
    var ts := End(s, sched);
    if i :| 0 <= i < |ts| && |ts[i].todo| > 0 {
      var j := FindRunnable(ts, i);
    }
    forall i, a, b | 0 <= i < |ts| && InodeLock(a) in ts[i].held && InodeLock(b) in ts[i].held ensures a == b {
      assert Level(InodeLock(a)) == 0 == Level(InodeLock(b));
    }
  }

  // Nobody uses what a lock is there for without holding it, and no two threads use it at the same
  // time: no two are ever inside an insertion, an allocation, or an operation on one inode.
  lemma Exclusive(programs: seq<seq<Call>>, sched: seq<nat>, i: nat, j: nat)
    requires Schedule(Start(programs), sched)
    requires i < |programs| && j < |programs|
    ensures |End(Start(programs), sched)| == |programs|
    ensures var ts := End(Start(programs), sched);
      && (|ts[i].todo| > 0 && ts[i].todo[0].Use? ==> ts[i].todo[0].lock in ts[i].held)
      && (i != j && |ts[i].todo| > 0 && ts[i].todo[0].Use? && |ts[j].todo| > 0 && ts[j].todo[0].Use?
          ==> ts[i].todo[0] != ts[j].todo[0])
  {
    var s := Start(programs);
    forall k | 0 <= k < |s| ensures Climbs(s[k].held, s[k].todo) && Holds(s[k].held, s[k].todo) == {} {
      ProgramClimbs(programs[k]);
    }
    RunOrderly(s, sched);
  }

  // What an operation uses, and so holds the lock of.
  predicate Needs(call: Call, l: Lock) {
    match call
    case Create(parent, allocs, inserted, newBlock) =>
      l == IdLock || l == TreeLock || (inserted && l == InodeLock(parent))
      || (l == FreeLock && (allocs > 0 || (inserted && newBlock)))
    case Walk(parent, lookups) => l == InodeLock(parent) || (lookups > 0 && l == TreeLock)
    case Read(ino) => l == InodeLock(ino)
    case Write(ino, extended, granted) =>
      l == InodeLock(ino) || (extended && l == FreeLock) || (extended && granted && l == TreeLock)
    case Flush => l == TreeLock
  }

  lemma CallUses(call: Call, l: Lock)
    ensures Use(l) in Acts(call) <==> Needs(call, l)
  {
    hide Enter, Leave, Briefly, Times, If;
    InBriefly(l, IdLock);
    InBriefly(l, TreeLock);
    InBriefly(l, FreeLock);
    match call
    case Create(parent, allocs, inserted, newBlock) =>
      var i := InodeLock(parent);
      InBriefly(l, i);
      InTimes(Use(l), Briefly(FreeLock), allocs);
      InIf(Use(l), newBlock, Briefly(FreeLock));
      InIf(Use(l), inserted, Enter(i) + (If(newBlock, Briefly(FreeLock)) + Leave(i)));
    case Walk(parent, lookups) =>
      InBriefly(l, InodeLock(parent));
      InTimes(Use(l), Briefly(TreeLock), lookups);
    case Read(ino) => InBriefly(l, InodeLock(ino));
    case Write(ino, extended, granted) =>
      InBriefly(l, InodeLock(ino));
      InIf(Use(l), extended, Briefly(FreeLock));
      InIf(Use(l), extended && granted, Briefly(TreeLock));
    case Flush =>
  }

  lemma InBriefly(l: Lock, m: Lock)
    ensures Use(l) in Briefly(m) <==> l == m
    ensures (Use(l) in Enter(m) <==> l == m) && (Use(l) in Leave(m) <==> l == m)
  {
  }

  lemma InIf(a: Act, c: bool, acts: seq<Act>)
    ensures a in If(c, acts) <==> c && a in acts
  {
  }

  lemma {:induction false} InTimes(a: Act, acts: seq<Act>, n: nat)
    ensures a in Times(acts, n) <==> n > 0 && a in acts
  {
    if n > 0 { InTimes(a, acts, n - 1); }
  }

  // The lock actions still to come.
  function Work(ts: seq<Thread>): nat {
    if |ts| == 0 then 0 else |ts[0].todo| + Work(ts[1..])
  }

  lemma {:induction false} WorkStep(ts: seq<Thread>, i: nat, t: Thread)
    requires i < |ts|
    ensures Work(ts[i := t]) == Work(ts) - |ts[i].todo| + |t.todo|
  {
    if i > 0 {
      assert ts[i := t][1..] == ts[1..][i - 1 := t];
      WorkStep(ts[1..], i - 1, t);
    } else {
      assert ts[0 := t][1..] == ts[1..];
    }
  }

  lemma {:induction false} WorkDone(ts: seq<Thread>, sched: seq<nat>)
    requires Schedule(ts, sched)
    ensures Work(End(ts, sched)) + |sched| == Work(ts)
    decreases |sched|
  {
    if |sched| > 0 {
      var us := Step(ts, sched[0]);
      WorkStep(ts, sched[0], us[sched[0]]);
      WorkDone(us, sched[1..]);
    }
  }

  lemma {:induction false} NoWork(ts: seq<Thread>)
    ensures Work(ts) == 0 <==> forall i :: 0 <= i < |ts| ==> ts[i].todo == []
  {
    if |ts| > 0 {
      NoWork(ts[1..]);
      assert forall i :: 0 < i < |ts| ==> ts[i] == ts[1..][i - 1];
    }
  }

  // Every run ends, and ends with all operations done: a schedule that cannot be continued has
  // taken every lock action of every thread, and no lock is held any more.
  lemma AllFinish(programs: seq<seq<Call>>, sched: seq<nat>)
    requires Schedule(Start(programs), sched)
    ensures |sched| <= Work(Start(programs))
    ensures var ts := End(Start(programs), sched);
      (forall j :: !CanStep(ts, j)) ==>
        |sched| == Work(Start(programs)) && forall i :: 0 <= i < |ts| ==> ts[i] == Thread({}, [])
  {
    var s := Start(programs);
    var ts := End(s, sched);
    WorkDone(s, sched);
    NoDeadlock(programs, sched);
    if forall j :: !CanStep(ts, j) {
      NoWork(ts);
      forall i | 0 <= i < |s| ensures Climbs(s[i].held, s[i].todo) && Holds(s[i].held, s[i].todo) == {} {
        ProgramClimbs(programs[i]);
      }
      RunOrderly(s, sched);
      assert forall i :: 0 <= i < |ts| ==> Holds(ts[i].held, ts[i].todo) == {};
    }
  }

  // spfs_write as it stands returns without unlocking when no extent could be allocated, and when
  // it gives up on the way: at an extent that cannot be parsed, or one that counts bytes in its
  // first sector, which it takes for an error.
  function WriteAsWritten(ino: nat, extended: bool, granted: bool, givesUp: bool): seq<Act> {
    Enter(InodeLock(ino)) + (If(extended, Briefly(FreeLock)) +
    (If(extended && granted, Briefly(TreeLock)) + If((!extended || granted) && !givesUp, Leave(InodeLock(ino)))))
  }

  // What it holds in the end, if anything, is the lock of the inode.
  lemma WriteHolds(ino: nat, extended: bool, granted: bool, givesUp: bool)
    ensures Holds({}, WriteAsWritten(ino, extended, granted, givesUp)) ==
              if (!extended || granted) && !givesUp then {} else {InodeLock(ino)}
  {
    hide Holds, Climbs, Enter, Leave, Briefly;
    if (!extended || granted) && !givesUp {
      CallClimbs(Write(ino, extended, granted));
      assert WriteAsWritten(ino, extended, granted, givesUp) == Acts(Write(ino, extended, granted));
    } else {
      var i := InodeLock(ino);
      var f, t := If(extended, Briefly(FreeLock)), If(extended && granted, Briefly(TreeLock));
      EnterClimbs({}, i);
      IfClimbs({} + {i}, extended, FreeLock);
      IfClimbs({} + {i}, extended && granted, TreeLock);
      ClimbsAppend({} + {i}, f, t);
      ClimbsAppend({}, Enter(i), f + t);
      assert WriteAsWritten(ino, extended, granted, givesUp) == Enter(i) + (f + t);
    }
  }

  // It gives its lock back exactly when it takes none of these exits; then it is the repaired
  // operation.
  lemma WriteLeaks(ino: nat, extended: bool, granted: bool, givesUp: bool)
    ensures Holds({}, WriteAsWritten(ino, extended, granted, givesUp)) == {} <==> (!extended || granted) && !givesUp
    ensures (!extended || granted) && !givesUp ==>
      WriteAsWritten(ino, extended, granted, givesUp) == Acts(Write(ino, extended, granted))
  {
    WriteHolds(ino, extended, granted, givesUp);
    assert InodeLock(ino) in {InodeLock(ino)};
  }

  // spfs_read as it stands does so when an extent cannot be parsed, and never comes to the unlocking
  // when the reading of an extent goes on for ever.
  function ReadAsWritten(ino: nat, returned: bool): seq<Act> {
    Enter(InodeLock(ino)) + If(returned, Leave(InodeLock(ino)))
  }

  lemma ReadLeaks(ino: nat, returned: bool)
    ensures Holds({}, ReadAsWritten(ino, returned)) == if returned then {} else {InodeLock(ino)}
    ensures returned ==> ReadAsWritten(ino, returned) == Acts(Read(ino))
  {
    hide Holds, Climbs, Enter, Leave;
    var i := InodeLock(ino);
    if returned {
      CallClimbs(Read(ino));
      assert Enter(i) + Leave(i) == Briefly(i);
    } else {
      EnterClimbs({}, i);
      assert ReadAsWritten(ino, returned) == Enter(i);
      assert {} + {i} == {i};
    }
  }

  // Whether a thread gives a lock back before it asks for it again.
  predicate GivesBack(acts: seq<Act>, l: Lock)
    decreases |acts|
  {
    |acts| > 0 && acts[0] != Acquire(l) && (acts[0] == Release(l) || GivesBack(acts[1..], l))
  }

  // A lock that its holder does not give back is lost: whoever waits for it, be it the holder
  // itself, waits for ever.
  lemma {:induction false} LeakBlocks(ts: seq<Thread>, sched: seq<nat>, i: nat, k: nat, l: Lock)
    requires Schedule(ts, sched) && i < |ts| && k < |ts| && l in ts[i].held && !GivesBack(ts[i].todo, l)
    requires |ts[k].todo| > 0 && ts[k].todo[0] == Acquire(l)
    ensures var us := End(ts, sched); |us| == |ts| && us[k] == ts[k] && l in us[i].held && !CanStep(us, k)
    decreases |sched|
  {
    if |sched| > 0 {
      assert !CanStep(ts, k);
      LeakBlocks(Step(ts, sched[0]), sched[1..], i, k, l);
    }
  }

  // A thread that runs into a leaking write or read of a file and then writes the file again never
  // gets further than to ask for the lock.
  lemma LeakThenWrite(ts: seq<Thread>, sched: seq<nat>, i: nat, ino: nat, extended: bool, granted: bool, rest: seq<Act>)
    requires Schedule(ts, sched) && i < |ts| && InodeLock(ino) in ts[i].held
    requires ts[i].todo == Acts(Write(ino, extended, granted)) + rest
    ensures i < |End(ts, sched)| && End(ts, sched)[i] == ts[i] && !CanStep(End(ts, sched), i)
  {
    var l := InodeLock(ino);
    assert ts[i].todo[0] == Acquire(l);
    LeakBlocks(ts, sched, i, i, l);
  }
}
