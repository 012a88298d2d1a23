/** Whole scheduler passes and whole runs of the MLFQ scheduler. */
module MlfqRuns {
  import opened RingSpec
  import opened MlfqSpec

  // ----- one aging pass over queues 1 to 4 ----------------------------------

  lemma WindowProcs(s: Sched, i: int)
    requires Placed(s) && 0 <= i < NQUEUE
    ensures AllProcs(Window(s.qs[i]))
    ensures forall p :: p in Window(s.qs[i]) ==> Live(s.qs, i, p) && IsProc(p) && s.procs[p].qn == i && p !in s.lost
  {
    forall k | 0 <= k < |Window(s.qs[i])|
      ensures 0 <= Window(s.qs[i])[k] < NPROC
    {
      assert Live(s.qs, i, Window(s.qs[i])[k]);
    }
    assert forall p :: p in Window(s.qs[i]) ==> Live(s.qs, i, p);
  }

  /** The entries of queue j that a pass promotes, less the lost ones. */
  ghost function Risen(s: Sched, j: int, lost: set<int>): seq<int>
    requires Placed(s) && 1 <= j <= NQUEUE
  {
    if j == NQUEUE then []
    else
      WindowProcs(s, j);
      Except(Aged(Window(s.qs[j]), s.procs), lost)
  }

  ghost function Stay(s: Sched, j: int): seq<int>
    requires Placed(s) && 0 <= j < NQUEUE
  {
    WindowProcs(s, j);
    Kept(Window(s.qs[j]), s.procs)
  }

  lemma {:induction false} ExceptSame(ps: seq<int>, a: set<int>, b: set<int>)
    requires forall x :: x in ps ==> (x in a <==> x in b)
    ensures Except(ps, a) == Except(ps, b)
  {
    if ps == [] {
      assert Except(ps, a) == [] == Except(ps, b);
    } else {
      var h := ps[0];
      assert h in ps;
      assert (h in a) == (h in b);
      ExceptSame(ps[1..], a, b);
    }
  }

  lemma {:induction false} AgedSubset(ps: seq<int>, procs: seq<Proc>)
    requires |procs| == NPROC && AllProcs(ps)
    ensures forall x :: x in Aged(ps, procs) <==> x in ps && procs[x].waittime > AGE
    ensures forall x :: x in Kept(ps, procs) <==> x in ps && procs[x].waittime <= AGE
  {
    if ps != [] {
      AgedSubset(ps[1..], procs);
      assert ps == [ps[0]] + ps[1..];
    }
  }

  /** Two queues have no entry in common. */
  lemma Disjoint(s: Sched, i: int, j: int)
    requires Placed(s) && 0 <= i < NQUEUE && 0 <= j < NQUEUE && i != j
    ensures forall x :: x in Window(s.qs[i]) ==> x !in Window(s.qs[j])
  {
    WindowProcs(s, i);
    WindowProcs(s, j);
  }

  /** Aging queue i leaves the waiting times in queue j > i alone. */
  lemma LaterQueue(s: Sched, e: Sched, i: int, j: int, lost: set<int>)
    requires Placed(s) && Placed(e) && 1 <= i < j < NQUEUE && AgedTo(s, e, i, [], Window(s.qs[i]))
    ensures e.qs[j] == s.qs[j] && Stay(e, j) == Stay(s, j)
    ensures Risen(e, j, lost) == Risen(s, j, lost)
  {
    WindowProcs(s, j);
    Disjoint(s, j, i);
    SameTimes(Window(s.qs[j]), s.procs, e.procs);
  }

  /** The state e after looking at queues i and up, once each and in order: each
      of them keeps the entries that have waited at most AGE and takes in, at its
      tail, the promoted ones of the next. */
  ghost predicate PassedTo(s: Sched, e: Sched, i: int) {
    && Placed(s) && Placed(e) && 1 <= i <= NQUEUE && s.lost <= e.lost
    && (forall j :: 0 <= j < i - 1 ==> e.qs[j] == s.qs[j])
    && Window(e.qs[i - 1]) == Window(s.qs[i - 1]) + Risen(s, i, e.lost)
    && (forall j :: i <= j < NQUEUE ==> Window(e.qs[j]) == Stay(s, j) + Risen(s, j + 1, e.lost))
    && (forall p :: p in e.lost && p !in s.lost ==> i <= s.procs[p].qn)
    && (forall p :: IsProc(p) && s.procs[p].waittime <= AGE ==> e.procs[p] == s.procs[p])
    && (forall p :: IsProc(p) && s.procs[p].state == RUNNABLE && i <= s.procs[p].qn && p !in e.lost ==> e.procs[p].waittime <= AGE)
  }

  lemma {:induction false} AgeFromWindows(s: Sched, i: int)
    requires Placed(s) && 1 <= i <= NQUEUE
    ensures PassedTo(s, AgeFrom(s, i), i)
    decreases NQUEUE - i
  {
    if i < NQUEUE {
      var w := Window(s.qs[i]);
      WindowProcs(s, i);
      AgeListPlaced(s, i, w);
      AgeListWindows(s, i, [], w);
      var m := AgeList(s, i, w);
      AgeFromWindows(m, i + 1);
      PassStep(s, m, AgeFrom(m, i + 1), i);
    } else {
      forall p | IsProc(p)
        ensures s.procs[p].qn < NQUEUE
      {
        assert QueueNumberOk(s.procs[p]);
      }
    }
  }

  lemma PassStep(s: Sched, m: Sched, e: Sched, i: int)
    requires Placed(s) && 1 <= i < NQUEUE && AgedTo(s, m, i, [], Window(s.qs[i])) && PassedTo(m, e, i + 1)
    ensures PassedTo(s, e, i)
  {
    WindowProcs(s, i);
    AgedSubset(Window(s.qs[i]), s.procs);
    LostLater(s, m, e, i);
    PassWindows(s, m, e, i);
    forall p | IsProc(p) && s.procs[p].state == RUNNABLE && i <= s.procs[p].qn && p !in e.lost
      ensures e.procs[p].waittime <= AGE
    {
      if s.procs[p].qn == i {
        assert Live(s.qs, i, p);
      } else {
        assert p !in Window(s.qs[i]);
        assert m.procs[p] == s.procs[p];
      }
    }
  }

  /** Processes lost after queue i's turn come from later queues. */
  lemma LostLater(s: Sched, m: Sched, e: Sched, i: int)
    requires Placed(s) && 1 <= i < NQUEUE && AgedTo(s, m, i, [], Window(s.qs[i])) && PassedTo(m, e, i + 1)
    ensures forall p :: p in e.lost && p !in m.lost ==> p !in Window(s.qs[i]) && i + 1 <= s.procs[p].qn
    ensures forall p :: p in m.lost && p !in s.lost ==> s.procs[p].qn == i
  {
    WindowProcs(s, i);
    forall p | p in e.lost && p !in m.lost
      ensures p !in Window(s.qs[i]) && i + 1 <= s.procs[p].qn
    {
      assert IsProc(p);
      if p in Window(s.qs[i]) {
        PromotedBelow(s, m, i, p);
        assert false;
      }
      assert m.procs[p] == s.procs[p];
    }
  }

  /** After its turn, an entry of queue i is in queue i or i - 1. */
  lemma PromotedBelow(s: Sched, m: Sched, i: int, p: int)
    requires Placed(s) && Placed(m) && 1 <= i < NQUEUE && AgedTo(s, m, i, [], Window(s.qs[i]))
    requires p in Window(s.qs[i]) && p !in m.lost
    ensures IsProc(p) && m.procs[p].qn <= i
  {
    WindowProcs(s, i);
    AgedSubset(Window(s.qs[i]), s.procs);
    if s.procs[p].waittime > AGE {
      ExceptMember(Aged(Window(s.qs[i]), s.procs), m.lost, p);
      assert p in Window(m.qs[i - 1]);
      assert Live(m.qs, i - 1, p);
    }
  }

  lemma {:induction false} ExceptMember(ps: seq<int>, out: set<int>, p: int)
    requires p in ps && p !in out
    ensures p in Except(ps, out)
  {
    if ps[0] != p {
      ExceptMember(ps[1..], out, p);
    }
  }

  lemma PassWindows(s: Sched, m: Sched, e: Sched, i: int)
    requires Placed(s) && 1 <= i < NQUEUE && AgedTo(s, m, i, [], Window(s.qs[i])) && PassedTo(m, e, i + 1)
    requires forall p :: p in e.lost && p !in m.lost ==> p !in Window(s.qs[i])
    ensures forall j :: 0 <= j < i - 1 ==> e.qs[j] == s.qs[j]
    ensures Window(e.qs[i - 1]) == Window(s.qs[i - 1]) + Risen(s, i, e.lost)
    ensures forall j :: i <= j < NQUEUE ==> Window(e.qs[j]) == Stay(s, j) + Risen(s, j + 1, e.lost)
  {
    WindowProcs(s, i);
    AgedSubset(Window(s.qs[i]), s.procs);
    ExceptSame(Aged(Window(s.qs[i]), s.procs), m.lost, e.lost);
    assert e.qs[i - 1] == m.qs[i - 1];
    forall j | i <= j < NQUEUE
      ensures Window(e.qs[j]) == Stay(s, j) + Risen(s, j + 1, e.lost)
    {
      PassWindowAt(s, m, e, i, j);
    }
  }

  lemma PassWindowAt(s: Sched, m: Sched, e: Sched, i: int, j: int)
    requires Placed(s) && 1 <= i <= j < NQUEUE && AgedTo(s, m, i, [], Window(s.qs[i])) && PassedTo(m, e, i + 1)
    ensures Window(e.qs[j]) == Stay(s, j) + Risen(s, j + 1, e.lost)
  {
    RisenSame(s, m, e, i, j);
    if i < j {
      LaterQueue(s, m, i, j, e.lost);
    } else {
      OwnQueue(s, m, i);
    }
  }

  lemma RisenSame(s: Sched, m: Sched, e: Sched, i: int, j: int)
    requires Placed(s) && 1 <= i <= j < NQUEUE && AgedTo(s, m, i, [], Window(s.qs[i])) && PassedTo(m, e, i + 1)
    ensures Risen(m, j + 1, e.lost) == Risen(s, j + 1, e.lost)
  {
    if j + 1 < NQUEUE {
      LaterQueue(s, m, i, j + 1, e.lost);
    }
  }

  lemma OwnQueue(s: Sched, m: Sched, i: int)
    requires Placed(s) && 1 <= i < NQUEUE && AgedTo(s, m, i, [], Window(s.qs[i]))
    ensures Window(m.qs[i]) == Stay(s, i)
  {
    assert Window(m.qs[i]) == [] + Stay(s, i);
  }

  /** One aging pass: every process that was waiting in queues 1 to 4 and is not
      lost has now waited at most AGE, and each queue is, in order, what it kept
      followed by what the next one gave it. */
  lemma AgingPass(s: Sched)
    requires Placed(s)
    ensures PassedTo(s, AgeFrom(s, 1), 1)
    ensures forall j, p :: 1 <= j < NQUEUE && Live(AgeFrom(s, 1).qs, j, p) ==> AgeFrom(s, 1).procs[p].waittime <= AGE
  {
    AgeFromWindows(s, 1);
    var e := AgeFrom(s, 1);
    forall j, p | 1 <= j < NQUEUE && Live(e.qs, j, p)
      ensures e.procs[p].waittime <= AGE
    {
      WindowProcs(s, j);
      AgedSubset(Window(s.qs[j]), s.procs);
      if p in Stay(s, j) {
        assert p in Window(s.qs[j]);
      } else {
        assert p in Risen(s, j + 1, e.lost);
        WindowProcs(s, j + 1);
        AgedSubset(Window(s.qs[j + 1]), s.procs);
        ExceptFrom(Aged(Window(s.qs[j + 1]), s.procs), e.lost, p);
        assert p in Window(s.qs[j + 1]);
      }
      assert IsProc(p) && s.procs[p].state == RUNNABLE;
    }
  }

  lemma {:induction false} ExceptFrom(ps: seq<int>, out: set<int>, p: int)
    requires p in Except(ps, out)
    ensures p in ps && p !in out
  {
    if ps != [] {
      var h := ps[0];
      if p in Except(ps[1..], out) {
        ExceptFrom(ps[1..], out, p);
      } else {
        assert p == h;
      }
    }
  }

  // ----- steps --------------------------------------------------------------

  datatype Step =
    | Alloc(p: int, pid: nat, maker: int)  // allocproc finds slot p, for fork by `maker`
    | AllocFail(p: int)             // kstack or copyuvm failed
    | Ready(p: int, maker: int)        // end of fork, or userinit
    | Dispatch                      // scheduler: aging, pop, run
    | Yield(p: int)                 // the slice is used up: yield and the scheduler's push
    | Sleep(p: int, chan: nat)
    | Wakeup(chan: nat)
    | Kill(pid: nat)
    | Exit(p: int, parent: nat, reaper: nat, abandoned: bool)  // wakes the parent, and init for zombie children
    | Reap(p: int)                  // wait
    | Tick                          // change_ticks
    | Memory(w: int)                // the word before the queue array changes

  /** wakeup1(chan), from slot k on. */
  ghost function WakeFrom(s: Sched, k: int, chan: nat): (n: Sched)
    requires Placed(s) && 0 <= k <= NPROC
    ensures Placed(n)
    decreases NPROC - k
  {
    if k == NPROC then s
    else if s.procs[k].state == SLEEPING && s.procs[k].chan == chan then
      WakePlaced(s, k);
      WakeFrom(Wake(s, k), k + 1, chan)
    else WakeFrom(s, k + 1, chan)
  }

  /** Make a sleeping process runnable and push it. */
  ghost function Wake(s: Sched, p: int): Sched
    requires Shape(s) && IsProc(p) && 0 <= s.procs[p].qn < NQUEUE
  {
    PushTo(s.(procs := s.procs[p := s.procs[p].(state := RUNNABLE, curtime := 0)]), s.procs[p].qn, p)
  }

  /** Nothing refers to a process that is not runnable. */
  lemma NotRunnable(s: Sched, p: int, np: Proc)
    requires Placed(s) && IsProc(p) && s.procs[p].state != RUNNABLE && QueueNumberOk(np)
    ensures np.state != RUNNABLE ==> Placed(s.(procs := s.procs[p := np]))
    ensures np.state == RUNNABLE ==> PlacedBut(s.(procs := s.procs[p := np]), p)
  {
    var n := s.(procs := s.procs[p := np]);
    forall i, x | Live(n.qs, i, x)
      ensures x != p
    {
      assert Live(s.qs, i, x);
    }
    forall x | IsProc(x) && x != p && n.procs[x].state == RUNNABLE && x !in n.lost
      ensures Live(n.qs, n.procs[x].qn, x)
    {
      assert Live(s.qs, s.procs[x].qn, x);
    }
  }

  lemma WakePlaced(s: Sched, p: int)
    requires Placed(s) && IsProc(p) && s.procs[p].state == SLEEPING
    ensures QueueNumberOk(s.procs[p]) && Placed(Wake(s, p)) && s.lost <= Wake(s, p).lost
  {
    var np := s.procs[p].(state := RUNNABLE, curtime := 0);
    assert QueueNumberOk(s.procs[p]);
    NotRunnable(s, p, np);
    PushPlaces(s.(procs := s.procs[p := np]), p);
  }

  /** Ticks a process may run before it is moved one queue down. */
  function Slice(qn: int): nat {
    if qn == 0 then 1 else if qn == 1 then 2 else if qn == 2 then 4 else if qn == 3 then 8 else 16
  }

  /** Process p is made by a running one, or by userinit before there is any. */
  ghost predicate MadeBy(s: Sched, p: int, maker: int)
    requires Shape(s)
  {
    if maker == -1 then forall q :: IsProc(q) && q != p ==> s.procs[q].state == UNUSED
    else IsProc(maker) && s.procs[maker].state == RUNNING
  }

  /** The clock interrupt makes a process yield once its slice is used up, and then
      always moves it down; the scheduler's other branch is never taken. */
  ghost predicate Enabled(s: Sched, step: Step) {
    && Shape(s)
    && match step
       case Alloc(p, pid, maker) =>
         && IsProc(p) && s.procs[p].state == UNUSED && (forall q :: 0 <= q < p ==> s.procs[q].state != UNUSED)
         && pid > 0 && (forall q :: IsProc(q) ==> s.procs[q].pid != pid) && MadeBy(s, p, maker)
       case AllocFail(p) => IsProc(p) && s.procs[p].state == EMBRYO
       case Ready(p, maker) => IsProc(p) && s.procs[p].state == EMBRYO && MadeBy(s, p, maker)
       case Dispatch => true
       case Yield(p) => IsProc(p) && s.procs[p].state == RUNNING && s.procs[p].curtime >= Slice(s.procs[p].qn)
       case Sleep(p, chan) => IsProc(p) && s.procs[p].state == RUNNING
       case Wakeup(chan) => true
       case Kill(pid) => true
       case Exit(p, parent, reaper, abandoned) => IsProc(p) && s.procs[p].state == RUNNING
       case Reap(p) => IsProc(p) && s.procs[p].state == ZOMBIE
       case Tick => true
       case Memory(w) => true
  }

  /** The first process with this pid, or -1. */
  function ByPid(procs: seq<Proc>, pid: nat, k: nat): int
    requires k <= |procs|
    decreases |procs| - k
  {
    if k == |procs| then -1 else if procs[k].pid == pid then k else ByPid(procs, pid, k + 1)
  }

  lemma {:induction false} ByPidRange(procs: seq<Proc>, pid: nat, k: nat)
    requires k <= |procs|
    ensures -1 <= ByPid(procs, pid, k) < |procs|
    decreases |procs| - k
  {
    if k < |procs| && procs[k].pid != pid {
      ByPidRange(procs, pid, k + 1);
    }
  }

  /** The first queue with an entry, or NQUEUE. */
  function FirstQueue(qs: Queues, i: int): (r: int)
    requires |qs| == NQUEUE && 0 <= i <= NQUEUE
    ensures i <= r <= NQUEUE && (r < NQUEUE ==> qs[r].face != -1)
    ensures forall j :: i <= j < r ==> qs[j].face == -1
    decreases NQUEUE - i
  {
    if i == NQUEUE || qs[i].face != -1 then i else FirstQueue(qs, i + 1)
  }

  /** pop from the first queue with an entry, and run it if it is runnable. */
  ghost function PopAndRun(s: Sched): Sched
    requires Shape(s)
  {
    var i := FirstQueue(s.qs, 0);
    if i == NQUEUE then s
    else
      var p := s.qs[i].row[s.qs[i].face];
      var n := s.(qs := s.qs[i := TakeFirst(s.qs[i])]);
      if IsProc(p) && s.procs[p].state == RUNNABLE
      then n.(procs := s.procs[p := s.procs[p].(state := RUNNING, waittime := 0, curtime := 0)])
      else n
  }

  /** The demotion on yield: one queue down, but never below the last. */
  function Requeued(p: Proc): Proc {
    p.(state := RUNNABLE, curtime := 0, waittime := 0, qn := if p.qn != 4 then p.qn + 1 else p.qn)
  }

  ghost function Next(s: Sched, step: Step): Sched
    requires Placed(s) && Enabled(s, step)
  {
    match step
    case Alloc(p, pid, maker) => s.(procs := s.procs[p := Proc(EMBRYO, 0, pid, 0, 0, 0)])
    case AllocFail(p) => s.(procs := s.procs[p := s.procs[p].(state := UNUSED)])
    case Ready(p, maker) => PushTo(s.(procs := s.procs[p := s.procs[p].(state := RUNNABLE)]), 0, p)
    case Dispatch => PopAndRun(AgeFrom(s, 1))
    case Yield(p) =>
      var np := Requeued(s.procs[p]);
      assert QueueNumberOk(s.procs[p]);
      PushTo(s.(procs := s.procs[p := np]), np.qn, p)
    case Sleep(p, chan) => s.(procs := s.procs[p := s.procs[p].(state := SLEEPING, chan := chan)])
    case Wakeup(chan) => WakeFrom(s, 0, chan)
    case Kill(pid) =>
      ByPidRange(s.procs, pid, 0);
      var p := ByPid(s.procs, pid, 0);
      if p == -1 || s.procs[p].state != SLEEPING then s
      else
        assert IsProc(p) && QueueNumberOk(s.procs[p]);
        PushTo(s.(procs := s.procs[p := s.procs[p].(state := RUNNABLE)]), s.procs[p].qn, p)
    case Exit(p, parent, reaper, abandoned) => Exited(s, p, parent, reaper, abandoned)
    case Reap(p) => s.(procs := s.procs[p := s.procs[p].(state := UNUSED, pid := 0)])
    case Tick => s.(procs := Ticked(s.procs))
    case Memory(w) => s.(below := w)
  }

  ghost function Exited(s: Sched, p: int, parent: nat, reaper: nat, abandoned: bool): Sched
    requires Placed(s) && IsProc(p)
  {
    var a := WakeFrom(s, 0, parent);
    var b := if abandoned then WakeFrom(a, 0, reaper) else a;
    b.(procs := b.procs[p := b.procs[p].(state := ZOMBIE)])
  }

  function Ticked(procs: seq<Proc>): (r: seq<Proc>)
    ensures |r| == |procs|
  {
    seq(|procs|, k requires 0 <= k < |procs| =>
      if procs[k].state != RUNNING then procs[k].(waittime := procs[k].waittime + 1)
      else procs[k].(curtime := procs[k].curtime + 1))
  }

  // ----- preservation -------------------------------------------------------

  /** The scheduler's pop yields a runnable process. */
  lemma PopPlaced(s: Sched)
    requires Placed(s)
    ensures Placed(PopAndRun(s)) && PopAndRun(s).lost == s.lost
    ensures var i := FirstQueue(s.qs, 0);
            i < NQUEUE ==>
              var p := Window(s.qs[i])[0];
              IsProc(p) && s.procs[p].state == RUNNABLE && PopAndRun(s).procs[p].state == RUNNING
  {
    var i := FirstQueue(s.qs, 0);
    if i < NQUEUE {
      var w := Window(s.qs[i]);
      TakeFirstWindow(s.qs[i]);
      var p := w[0];
      assert Live(s.qs, i, p);
      var n := PopAndRun(s);
      assert w == [p] + Window(n.qs[i]);
      PoppedPlaced(s, n, i, p);
    }
  }

  lemma PoppedPlaced(s: Sched, n: Sched, i: int, p: int)
    requires Placed(s) && 0 <= i < NQUEUE && Live(s.qs, i, p) && IsProc(p) && QueuesOk(n.qs)
    requires Window(s.qs[i]) == [p] + Window(n.qs[i])
    requires forall j :: 0 <= j < NQUEUE && j != i ==> n.qs[j] == s.qs[j]
    requires n.lost == s.lost && |n.procs| == NPROC && n.procs == s.procs[p := n.procs[p]]
    requires n.procs[p].state == RUNNING && n.procs[p].qn == s.procs[p].qn
    ensures Placed(n)
  {
    PopFront(Window(s.qs[i]), p, Window(n.qs[i]));
    forall j, x | Live(n.qs, j, x)
      ensures Live(s.qs, j, x) && x != p
    {
      assert j != i ==> Live(s.qs, j, x);
    }
    forall x | IsProc(x) && n.procs[x].state == RUNNABLE && x !in n.lost
      ensures Live(n.qs, n.procs[x].qn, x)
    {
      assert x != p && Live(s.qs, s.procs[x].qn, x);
    }
    assert QueueNumberOk(s.procs[p]);
  }

  lemma PopFront(w: seq<int>, p: int, v: seq<int>)
    requires NoDup(w) && w == [p] + v
    ensures NoDup(v) && p !in v && forall x :: x in w <==> x == p || x in v
  {
    assert w[0] == p;
    forall k | 0 <= k < |v|
      ensures v[k] == w[k + 1] && v[k] != p
    {
    }
    forall a, b | 0 <= a < b < |v|
      ensures v[a] != v[b]
    {
      assert w[a + 1] != w[b + 1];
    }
  }

  lemma {:induction false} WakeRunning(s: Sched, k: int, chan: nat, p: int)
    requires Placed(s) && 0 <= k <= NPROC && IsProc(p) && s.procs[p].state == RUNNING
    ensures WakeFrom(s, k, chan).procs[p] == s.procs[p]
    ensures s.lost <= WakeFrom(s, k, chan).lost
    decreases NPROC - k
  {
    if k < NPROC {
      if s.procs[k].state == SLEEPING && s.procs[k].chan == chan {
        WakePlaced(s, k);
        WakeRunning(Wake(s, k), k + 1, chan, p);
      } else {
        WakeRunning(s, k + 1, chan, p);
      }
    }
  }

  lemma {:induction false} WakeLost(s: Sched, k: int, chan: nat)
    requires Placed(s) && 0 <= k <= NPROC
    ensures s.lost <= WakeFrom(s, k, chan).lost
    decreases NPROC - k
  {
    if k < NPROC {
      if s.procs[k].state == SLEEPING && s.procs[k].chan == chan {
        WakePlaced(s, k);
        WakeLost(Wake(s, k), k + 1, chan);
      } else {
        WakeLost(s, k + 1, chan);
      }
    }
  }

  lemma TickPlaced(s: Sched)
    requires Placed(s)
    ensures Placed(s.(procs := Ticked(s.procs)))
  {
    var n := s.(procs := Ticked(s.procs));
    forall p | IsProc(p)
      ensures QueueNumberOk(n.procs[p])
    {
      assert QueueNumberOk(s.procs[p]);
    }
    forall i, p | Live(n.qs, i, p)
      ensures IsProc(p) && n.procs[p].state == RUNNABLE && n.procs[p].qn == i && p !in n.lost
    {
      assert Live(s.qs, i, p);
    }
  }

  lemma StepPlaced(s: Sched, step: Step)
    requires Placed(s) && Enabled(s, step)
    ensures Placed(Next(s, step)) && s.lost <= Next(s, step).lost
  {
    match step
    case Alloc(p, pid, maker) => NotRunnable(s, p, Proc(EMBRYO, 0, pid, 0, 0, 0));
    case AllocFail(p) => NotRunnable(s, p, s.procs[p].(state := UNUSED));
    case Ready(p, maker) =>
      assert QueueNumberOk(s.procs[p]);
      NotRunnable(s, p, s.procs[p].(state := RUNNABLE));
      PushPlaces(s.(procs := s.procs[p := s.procs[p].(state := RUNNABLE)]), p);
    case Dispatch =>
      AgeFromWindows(s, 1);
      PopPlaced(AgeFrom(s, 1));
    case Yield(p) =>
      var np := Requeued(s.procs[p]);
      assert QueueNumberOk(s.procs[p]);
      NotRunnable(s, p, np);
      PushPlaces(s.(procs := s.procs[p := np]), p);
    case Sleep(p, chan) =>
      assert QueueNumberOk(s.procs[p]);
      NotRunnable(s, p, s.procs[p].(state := SLEEPING, chan := chan));
    case Wakeup(chan) => WakeLost(s, 0, chan);
    case Kill(pid) =>
      ByPidRange(s.procs, pid, 0);
      var p := ByPid(s.procs, pid, 0);
      if p != -1 && s.procs[p].state == SLEEPING {
        assert IsProc(p) && QueueNumberOk(s.procs[p]);
        NotRunnable(s, p, s.procs[p].(state := RUNNABLE));
        PushPlaces(s.(procs := s.procs[p := s.procs[p].(state := RUNNABLE)]), p);
      }
    case Exit(p, parent, reaper, abandoned) => ExitPlaced(s, p, parent, reaper, abandoned);
    case Reap(p) =>
      assert QueueNumberOk(s.procs[p]);
      NotRunnable(s, p, s.procs[p].(state := UNUSED, pid := 0));
    case Tick => TickPlaced(s);
    case Memory(w) =>
  }

  lemma ExitPlaced(s: Sched, p: int, parent: nat, reaper: nat, abandoned: bool)
    requires Placed(s) && IsProc(p) && s.procs[p].state == RUNNING
    ensures Placed(Exited(s, p, parent, reaper, abandoned)) && s.lost <= Exited(s, p, parent, reaper, abandoned).lost
  {
    var a := WakeFrom(s, 0, parent);
    WakeRunning(s, 0, parent, p);
    var b := if abandoned then WakeFrom(a, 0, reaper) else a;
    if abandoned {
      WakeRunning(a, 0, reaper, p);
    }
    assert QueueNumberOk(b.procs[p]);
    NotRunnable(b, p, b.procs[p].(state := ZOMBIE));
  }

  // ----- runs ---------------------------------------------------------------

  /** Boot: no process, every queue empty, any memory contents. */
  ghost predicate Init(s: Sched) {
    && Shape(s) && s.lost == {}
    && (forall p :: IsProc(p) ==> s.procs[p] == Proc(UNUSED, 0, 0, 0, 0, 0))
    && (forall i :: 0 <= i < NQUEUE ==> s.qs[i].face == -1)
  }

  lemma InitPlaced(s: Sched)
    requires Init(s)
    ensures Placed(s)
  {
  }

  ghost predicate Run(s: Sched, steps: seq<Step>, e: Sched)
    requires Placed(s)
    decreases |steps|
  {
    if steps == [] then s == e
    else
      && Enabled(s, steps[0])
      && (StepPlaced(s, steps[0]); Run(Next(s, steps[0]), steps[1..], e))
  }

  lemma {:induction false} RunPlaced(s: Sched, steps: seq<Step>, e: Sched)
    requires Placed(s) && Run(s, steps, e)
    ensures Placed(e) && s.lost <= e.lost
    decreases |steps|
  {
    if steps != [] {
      StepPlaced(s, steps[0]);
      RunPlaced(Next(s, steps[0]), steps[1..], e);
    }
  }

  /** Placement over whole runs.  Between critical sections a process is in a
      queue exactly when it is runnable and not lost; it is then in one slot
      only, of the queue numbered qn; and a lost process never comes back. */
  lemma Placement(s: Sched, steps: seq<Step>, e: Sched, p: int)
    requires Init(s) && Placed(s) && Run(s, steps, e) && IsProc(p)
    ensures Placed(e)
    ensures (exists i :: Live(e.qs, i, p)) <==> e.procs[p].state == RUNNABLE && p !in e.lost
    ensures forall i :: Live(e.qs, i, p) ==> i == e.procs[p].qn && NoDup(Window(e.qs[i]))
    ensures p in e.lost ==> e.procs[p].state == RUNNABLE && forall step :: Enabled(e, step) ==> p in Next(e, step).lost
  {
    RunPlaced(s, steps, e);
    if e.procs[p].state == RUNNABLE && p !in e.lost {
      assert Live(e.qs, e.procs[p].qn, p);
    }
    if p in e.lost {
      forall step | Enabled(e, step)
        ensures p in Next(e, step).lost
      {
        StepPlaced(e, step);
      }
    }
  }

  /** The scheduler's state test after pop never fails: in every reachable state
      a pass that finds a queue with an entry runs that queue's first entry. */
  lemma DispatchRuns(s: Sched, steps: seq<Step>, e: Sched)
    requires Init(s) && Placed(s) && Run(s, steps, e)
    ensures Placed(e)
    ensures var a := AgeFrom(e, 1);
            var i := FirstQueue(a.qs, 0);
            i < NQUEUE ==>
              && Window(a.qs[i]) != []
              && IsProc(Window(a.qs[i])[0])
              && Next(e, Dispatch).procs[Window(a.qs[i])[0]].state == RUNNING
              && Window(Next(e, Dispatch).qs[i]) == Window(a.qs[i])[1..]
  {
    RunPlaced(s, steps, e);
    PopRuns(AgeFrom(e, 1), FirstQueue(AgeFrom(e, 1).qs, 0));
  }

  lemma PopRuns(a: Sched, i: int)
    requires Placed(a) && i == FirstQueue(a.qs, 0)
    ensures i < NQUEUE ==>
              && Window(a.qs[i]) != [] && IsProc(Window(a.qs[i])[0]) && Shape(PopAndRun(a))
              && PopAndRun(a).procs[Window(a.qs[i])[0]].state == RUNNING
              && Window(PopAndRun(a).qs[i]) == Window(a.qs[i])[1..]
  {
    PopPlaced(a);
    if i < NQUEUE {
      TakeFirstWindow(a.qs[i]);
    }
  }
}
