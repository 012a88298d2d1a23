/** When push() drops a process: the exact condition, call by call, and a run from
    boot, with three processes that only wake each other and sleep, in which it
    happens. */
module MlfqLoss {
  import opened RingSpec
  import opened MlfqSpec
  import opened MlfqRuns

  // ----- when a process is kept ---------------------------------------------

  /** A yielding process goes one queue down, from the last back to it.  It joins
      that queue's tail exactly when push() meets no phantom: the queue is empty, or
      no empty queue is preceded in memory by a word equal to the process. */
  lemma YieldKeepsIff(s: Sched, p: int)
    requires Placed(s) && Enabled(s, Yield(p))
    ensures 0 <= s.procs[p].qn < NQUEUE
    ensures var a := if s.procs[p].qn < 4 then s.procs[p].qn + 1 else 4;
            var n := Next(s, Yield(p));
            && |n.procs| == NPROC && n.procs[p].qn == a && n.procs[p].state == RUNNABLE && n.procs[p].waittime == n.procs[p].curtime == 0
            && (forall x :: IsProc(x) && x != p ==> n.procs[x] == s.procs[x])
            && (p !in n.lost <==> !Phantom(s.qs, a, p, s.below))
            && (p !in n.lost ==> n.qs == s.qs[a := n.qs[a]] && Window(n.qs[a]) == Window(s.qs[a]) + [p])
            && (p in n.lost ==> n.qs == s.qs && forall i :: !Live(n.qs, i, p))
  {
    var np := Requeued(s.procs[p]);
    assert QueueNumberOk(s.procs[p]);
    NotRunnable(s, p, np);
    PushPlaces(s.(procs := s.procs[p := np]), p);
  }

  /** The same for the end of fork. */
  lemma ReadyKeepsIff(s: Sched, p: int, maker: int)
    requires Placed(s) && Enabled(s, Ready(p, maker))
    ensures var n := Next(s, Ready(p, maker));
            && |n.procs| == NPROC && n.procs[p].state == RUNNABLE && n.procs[p].qn == 0
            && (forall x :: IsProc(x) && x != p ==> n.procs[x] == s.procs[x])
            && (p !in n.lost <==> !Phantom(s.qs, 0, p, s.below))
            && (p !in n.lost ==> n.qs == s.qs[0 := n.qs[0]] && Window(n.qs[0]) == Window(s.qs[0]) + [p])
            && (p in n.lost ==> n.qs == s.qs)
  {
    assert QueueNumberOk(s.procs[p]);
    NotRunnable(s, p, s.procs[p].(state := RUNNABLE));
    PushPlaces(s.(procs := s.procs[p := s.procs[p].(state := RUNNABLE)]), p);
  }

  /** The same for kill of a sleeping process. */
  lemma KillKeepsIff(s: Sched, pid: nat, p: int)
    requires Placed(s) && p == ByPid(s.procs, pid, 0) && IsProc(p) && s.procs[p].state == SLEEPING
    ensures 0 <= s.procs[p].qn < NQUEUE
    ensures var a, n := s.procs[p].qn, Next(s, Kill(pid));
            && |n.procs| == NPROC && n.procs[p].state == RUNNABLE && n.procs[p].qn == a
            && (forall x :: IsProc(x) && x != p ==> n.procs[x] == s.procs[x])
            && (p !in n.lost <==> !Phantom(s.qs, a, p, s.below))
            && (p !in n.lost ==> n.qs == s.qs[a := n.qs[a]] && Window(n.qs[a]) == Window(s.qs[a]) + [p])
            && (p in n.lost ==> n.qs == s.qs)
  {
    assert QueueNumberOk(s.procs[p]);
    var np := s.procs[p].(state := RUNNABLE);
    var m := s.(procs := s.procs[p := np]);
    assert Next(s, Kill(pid)) == PushTo(m, s.procs[p].qn, p);
    assert p !in s.lost;
    MadeRunnable(s, p, np, m);
  }

  /** What PushPlaces says of a process that has just been made runnable. */
  lemma MadeRunnable(s: Sched, p: int, np: Proc, m: Sched)
    requires Placed(s) && IsProc(p) && s.procs[p].state != RUNNABLE && np.state == RUNNABLE && QueueNumberOk(np)
    requires m == s.(procs := s.procs[p := np])
    ensures Shape(m)
    ensures var a := np.qn;
            var n := PushTo(m, a, p);
            && |n.procs| == NPROC && n.procs[p].state == RUNNABLE && n.procs[p].qn == a
            && (forall x :: IsProc(x) && x != p ==> n.procs[x] == s.procs[x])
            && (p in n.lost <==> Phantom(s.qs, a, p, s.below))
            && (p !in n.lost ==> n.qs == s.qs[a := n.qs[a]] && Window(n.qs[a]) == Window(s.qs[a]) + [p])
            && (p in n.lost ==> n.qs == s.qs)
  {
    NotRunnable(s, p, np);
    PushPlaces(m, p);
  }

  predicate SleepsOn(p: Proc, chan: nat) {
    p.state == SLEEPING && p.chan == chan
  }

  /** The state when wakeup1's loop comes to slot k. */
  ghost function WakeTo(s: Sched, k: nat, chan: nat): (n: Sched)
    requires Placed(s) && k <= NPROC
    ensures Placed(n)
  {
    if k == 0 then s
    else
      var m := WakeTo(s, k - 1, chan);
      if SleepsOn(m.procs[k - 1], chan) then WakePlaced(m, k - 1); Wake(m, k - 1) else m
  }

  lemma WakeOne(s: Sched, p: int)
    requires Placed(s) && IsProc(p) && s.procs[p].state == SLEEPING
    ensures 0 <= s.procs[p].qn < NQUEUE && Shape(s)
    ensures var a, n := s.procs[p].qn, Wake(s, p);
            && Placed(n) && n.below == s.below && n.procs[p].state == RUNNABLE && n.procs[p].qn == a
            && (forall x :: IsProc(x) && x != p ==> n.procs[x] == s.procs[x])
            && (n.lost == if Phantom(s.qs, a, p, s.below) then s.lost + {p} else s.lost)
            && (!Phantom(s.qs, a, p, s.below) ==> n.qs == s.qs[a := Append(s.qs[a], p)])
  {
    var np := s.procs[p].(state := RUNNABLE, curtime := 0);
    assert QueueNumberOk(s.procs[p]);
    NotRunnable(s, p, np);
    PushPlaces(s.(procs := s.procs[p := np]), p);
  }

  lemma {:induction false} WakeSplit(s: Sched, k: nat, chan: nat)
    requires Placed(s) && k <= NPROC
    ensures WakeFrom(s, 0, chan) == WakeFrom(WakeTo(s, k, chan), k, chan) && WakeTo(s, k, chan).below == s.below
    ensures forall p :: k <= p < NPROC ==> WakeTo(s, k, chan).procs[p] == s.procs[p]
  {
    if k > 0 {
      WakeSplit(s, k - 1, chan);
      var m := WakeTo(s, k - 1, chan);
      if SleepsOn(m.procs[k - 1], chan) {
        WakeOne(m, k - 1);
      }
    }
  }

  /** The rest of the loop neither loses nor moves a process it has passed. */
  lemma {:induction false} WakeRest(s: Sched, k: nat, chan: nat, p: int)
    requires Placed(s) && 0 <= p < k <= NPROC
    ensures p in WakeFrom(s, k, chan).lost <==> p in s.lost
    ensures WakeFrom(s, k, chan).procs[p] == s.procs[p]
    decreases NPROC - k
  {
    if k < NPROC {
      if SleepsOn(s.procs[k], chan) {
        WakeOne(s, k);
        WakeRest(Wake(s, k), k + 1, chan, p);
      } else {
        WakeRest(s, k + 1, chan, p);
      }
    }
  }

  /** A process wakeup finds asleep is queued exactly when push() meets no phantom at
      its turn. */
  lemma WakeupKeepsIff(s: Sched, chan: nat, p: int)
    requires Placed(s) && IsProc(p) && SleepsOn(s.procs[p], chan)
    ensures 0 <= s.procs[p].qn < NQUEUE
    ensures var n := Next(s, Wakeup(chan));
            && (p !in n.lost <==> !Phantom(WakeTo(s, p, chan).qs, s.procs[p].qn, p, s.below))
            && Placed(n) && (p !in n.lost <==> Live(n.qs, s.procs[p].qn, p))
  {
    var m := WakeTo(s, p, chan);
    WakeAt(s, chan, p, m);
    Woken(m, p, Wake(m, p), chan);
    Enables(s, chan);
  }

  lemma Enables(s: Sched, chan: nat)
    requires Placed(s)
    ensures Enabled(s, Wakeup(chan)) && Next(s, Wakeup(chan)) == WakeFrom(s, 0, chan)
  {
  }

  /** Waking p, and then the rest of the loop. */
  lemma Woken(m: Sched, p: int, w: Sched, chan: nat)
    requires Placed(m) && IsProc(p) && m.procs[p].state == SLEEPING && 0 <= m.procs[p].qn < NQUEUE
    requires w == Wake(m, p) && Placed(w)
    ensures var n := WakeFrom(w, p + 1, chan);
            && (p !in n.lost <==> !Phantom(m.qs, m.procs[p].qn, p, m.below))
            && Placed(n) && (p !in n.lost <==> Live(n.qs, m.procs[p].qn, p))
  {
    assert p !in m.lost;
    WakeOne(m, p);
    var n := WakeFrom(w, p + 1, chan);
    assert p !in w.lost <==> !Phantom(m.qs, m.procs[p].qn, p, m.below);
    WakeRest(w, p + 1, chan, p);
    Queued(n, p);
  }

  /** The loop's turn at p. */
  lemma WakeAt(s: Sched, chan: nat, p: int, m: Sched)
    requires Placed(s) && IsProc(p) && SleepsOn(s.procs[p], chan) && m == WakeTo(s, p, chan)
    ensures Placed(m) && m.procs[p] == s.procs[p] && m.below == s.below && 0 <= s.procs[p].qn < NQUEUE && Placed(Wake(m, p))
    ensures WakeFrom(s, 0, chan) == WakeFrom(Wake(m, p), p + 1, chan)
  {
    WakeSplit(s, p, chan);
    WakePlaced(m, p);
  }

  lemma Queued(n: Sched, p: int)
    requires Placed(n) && IsProc(p) && n.procs[p].state == RUNNABLE
    ensures p !in n.lost <==> Live(n.qs, n.procs[p].qn, p)
  {
  }

  lemma {:induction false} WakeNone(s: Sched, k: nat, chan: nat)
    requires Placed(s) && k <= NPROC && forall x :: 0 <= x < k ==> !SleepsOn(s.procs[x], chan)
    ensures WakeTo(s, k, chan) == s
  {
    if k > 0 {
      WakeNone(s, k - 1, chan);
    }
  }

  lemma {:induction false} WakeNoMore(s: Sched, k: nat, chan: nat)
    requires Placed(s) && k <= NPROC && forall x :: k <= x < NPROC ==> !SleepsOn(s.procs[x], chan)
    ensures WakeFrom(s, k, chan) == s
    decreases NPROC - k
  {
    if k < NPROC {
      WakeNoMore(s, k + 1, chan);
    }
  }

  lemma WakeOther(s: Sched, p: int, x: int)
    requires Placed(s) && IsProc(p) && s.procs[p].state == SLEEPING && IsProc(x) && x != p && 0 <= s.procs[p].qn < NQUEUE
    ensures Wake(s, p).procs[x] == s.procs[x]
  {
    WakeOne(s, p);
  }

  /** wakeup of the one process asleep on a channel. */
  lemma WakeOnly(s: Sched, chan: nat, p: int)
    requires Placed(s) && IsProc(p) && SleepsOn(s.procs[p], chan)
    requires forall x :: IsProc(x) && x != p ==> !SleepsOn(s.procs[x], chan)
    ensures Shape(s) && 0 <= s.procs[p].qn < NQUEUE && Next(s, Wakeup(chan)) == Wake(s, p)
  {
    WakeNone(s, p, chan);
    WakeAt(s, chan, p, s);
    Enables(s, chan);
    var w := Wake(s, p);
    forall x | p + 1 <= x < NPROC
      ensures !SleepsOn(w.procs[x], chan)
    {
      WakeOther(s, p, x);
    }
    WakeNoMore(w, p + 1, chan);
  }

  // ----- runs from boot -----------------------------------------------------

  function Empty(): Ring {
    Ring(-1, -1, seq(NPROC, _ => -1))
  }

  /** Everything in the top queue; the others have never been used. */
  function Top(r: Ring): Queues {
    [r, Empty(), Empty(), Empty(), Empty()]
  }

  function Boot(): Sched {
    Sched(seq(NPROC, _ => Proc(UNUSED, 0, 0, 0, 0, 0)), Top(Empty()), -1, {})
  }

  ghost predicate FromBoot(steps: seq<Step>, e: Sched) {
    Init(Boot()) && Placed(Boot()) && Run(Boot(), steps, e)
  }

  ghost predicate Reachable(e: Sched) {
    exists steps :: FromBoot(steps, e)
  }

  lemma ReachPlaced(e: Sched)
    requires Reachable(e)
    ensures Placed(e)
  {
    var steps :| FromBoot(steps, e);
    RunPlaced(Boot(), steps, e);
  }

  lemma {:induction false} RunAppend(s: Sched, steps: seq<Step>, m: Sched, step: Step)
    requires Placed(s) && Run(s, steps, m) && Placed(m) && Enabled(m, step)
    ensures Run(s, steps + [step], Next(m, step))
    decreases |steps|
  {
    var all := steps + [step];
    if steps == [] {
      assert all[0] == step && all[1..] == [];
      StepPlaced(s, step);
      assert Run(Next(s, step), all[1..], Next(m, step));
    } else {
      assert all[0] == steps[0] && all[1..] == steps[1..] + [step];
      StepPlaced(s, steps[0]);
      RunAppend(Next(s, steps[0]), steps[1..], m, step);
    }
  }

  lemma ReachStep(s: Sched, step: Step, e: Sched)
    requires Reachable(s) && Placed(s) && Enabled(s, step) && e == Next(s, step)
    ensures Placed(e) && Reachable(e)
  {
    var steps :| FromBoot(steps, s);
    RunAppend(Boot(), steps, s, step);
    assert FromBoot(steps + [step], e);
    StepPlaced(s, step);
  }

  lemma BootReachable()
    ensures Placed(Boot()) && Reachable(Boot())
  {
    InitPlaced(Boot());
    assert FromBoot([], Boot());
  }

  lemma AgeNothing(s: Sched, i: int)
    requires Placed(s) && 1 <= i <= NQUEUE && forall j :: i <= j < NQUEUE ==> s.qs[j].face == -1
    ensures AgeFrom(s, i) == s
    decreases NQUEUE - i
  {
    if i < NQUEUE {
      assert Window(s.qs[i]) == [];
      assert AgeList(s, i, []) == s;
      AgeNothing(s, i + 1);
    }
  }

  // ----- steps on the top queue alone ---------------------------------------

  /** With only the top queue in use the one stale word is its last slot. */
  lemma TopPhantom(r: Ring, p: int)
    requires r.Ok() && p >= 0
    ensures QueuesOk(Top(r)) && (Phantom(Top(r), 0, p, -1) <==> r.face != -1 && r.row[NPROC - 1] == p)
  {
    var qs := Top(r);
    assert CellBefore(qs, 0, -1) == -1 && CellBefore(qs, 1, -1) == r.row[NPROC - 1];
    assert forall i :: 2 <= i < NQUEUE ==> CellBefore(qs, i, -1) == -1;
    assert qs[1].face == -1;
  }

  lemma TopSet(r: Ring, q: Ring)
    ensures Top(r)[0 := q] == Top(q)
  {
  }

  /** Reachable, with r as the top queue and nothing lost. */
  ghost predicate On(s: Sched, r: Ring) {
    Reachable(s) && |s.procs| == NPROC && r.Ok() && s.qs == Top(r) && s.below == -1 && s.lost == {}
  }

  lemma DispatchTop(s: Sched, r: Ring, p: int) returns (n: Sched)
    requires On(s, r) && r.face != -1 && p == r.row[r.face]
    ensures On(n, TakeFirst(r)) && 0 <= p < NPROC
    ensures n.procs == s.procs[p := s.procs[p].(state := RUNNING, waittime := 0, curtime := 0)]
  {
    ReachPlaced(s);
    AgeNothing(s, 1);
    assert r.Slot(0) == r.face && Window(r)[0] == p;
    assert Live(s.qs, 0, p);
    assert s.qs[0 := TakeFirst(r)] == Top(TakeFirst(r));
    n := Next(s, Dispatch);
    ReachStep(s, Dispatch, n);
  }

  lemma AllocTop(s: Sched, r: Ring, p: nat, maker: int) returns (n: Sched)
    requires On(s, r) && p < NPROC && Enabled(s, Alloc(p, p + 1, maker))
    ensures On(n, r) && n.procs == s.procs[p := Proc(EMBRYO, 0, p + 1, 0, 0, 0)]
  {
    ReachPlaced(s);
    n := Next(s, Alloc(p, p + 1, maker));
    ReachStep(s, Alloc(p, p + 1, maker), n);
  }

  lemma SleepTop(s: Sched, r: Ring, p: nat) returns (n: Sched)
    requires On(s, r) && p < NPROC && s.procs[p].state == RUNNING
    ensures On(n, r) && n.procs == s.procs[p := s.procs[p].(state := SLEEPING, chan := p + 1)]
  {
    ReachPlaced(s);
    n := Next(s, Sleep(p, p + 1));
    ReachStep(s, Sleep(p, p + 1), n);
  }

  lemma ReadyTop(s: Sched, r: Ring, p: int, maker: int) returns (n: Sched)
    requires On(s, r) && Enabled(s, Ready(p, maker)) && s.procs[p].waittime == s.procs[p].curtime == 0
    requires r.face != -1 ==> r.row[NPROC - 1] != p
    ensures On(n, Append(r, p)) && n.procs == s.procs[p := s.procs[p].(state := RUNNABLE)]
  {
    ReachPlaced(s);
    n := Next(s, Ready(p, maker));
    ReachStep(s, Ready(p, maker), n);
    PushedTop(s, r, p, s.(procs := s.procs[p := s.procs[p].(state := RUNNABLE)]));
  }

  lemma PushedTop(s: Sched, r: Ring, p: int, m: Sched)
    requires Placed(s) && s.qs == Top(r) && r.Ok() && s.below == -1 && IsProc(p) && s.procs[p].state == EMBRYO
    requires s.procs[p].waittime == s.procs[p].curtime == 0 && (r.face != -1 ==> r.row[NPROC - 1] != p)
    requires m == s.(procs := s.procs[p := s.procs[p].(state := RUNNABLE)])
    ensures Shape(m) && PushTo(m, 0, p) == m.(qs := Top(Append(r, p)))
  {
    assert QueueNumberOk(s.procs[p]);
    NotRunnable(s, p, m.procs[p]);
    TopPhantom(r, p);
    TopSet(r, Append(r, p));
    PushPlaces(m, p);
    assert m.procs[p := m.procs[p].(curtime := 0, waittime := 0)] == m.procs;
  }

  /** The one process asleep on its channel is woken; it is lost exactly when the last
      slot still names it. */
  lemma WakeTop(s: Sched, r: Ring, p: nat) returns (n: Sched)
    requires On(s, r) && p < NPROC && SleepsOn(s.procs[p], p + 1) && s.procs[p].qn == 0
    requires forall x :: 0 <= x < NPROC && x != p ==> !SleepsOn(s.procs[x], p + 1)
    ensures Reachable(n) && |n.procs| == NPROC && n.procs[p].state == RUNNABLE && n.procs[p].qn == 0
    ensures forall x :: 0 <= x < NPROC && x != p ==> n.procs[x] == s.procs[x]
    ensures if r.face != -1 && r.row[NPROC - 1] == p then p in n.lost else On(n, Append(r, p))
  {
    ReachPlaced(s);
    WakeOnly(s, p + 1, p);
    n := Next(s, Wakeup(p + 1));
    ReachStep(s, Wakeup(p + 1), n);
    WokenTop(s, r, p);
  }

  lemma WokenTop(s: Sched, r: Ring, p: nat)
    requires Placed(s) && s.qs == Top(r) && r.Ok() && s.below == -1 && s.lost == {}
    requires p < NPROC && s.procs[p].state == SLEEPING && s.procs[p].qn == 0
    ensures Shape(s)
    ensures var n := Wake(s, p);
            && |n.procs| == NPROC && n.procs[p].state == RUNNABLE && n.procs[p].qn == 0 && n.below == -1
            && (forall x :: 0 <= x < NPROC && x != p ==> n.procs[x] == s.procs[x])
            && if r.face != -1 && r.row[NPROC - 1] == p then p in n.lost else n.qs == Top(Append(r, p)) && n.lost == {}
  {
    TopPhantom(r, p);
    TopSet(r, Append(r, p));
    WakeOne(s, p);
  }

  // ----- three processes ----------------------------------------------------

  /** What has been written to the top row by turn t: the processes in rotation. */
  function TopRow(t: nat): (row: seq<int>)
    ensures |row| == NPROC
  {
    seq(NPROC, j => if j + NPROC <= t + 1 then (j + NPROC + 1) % 3 else if j <= t + 1 then (j + 1) % 3 else -1)
  }

  function TopRing(t: nat): (r: Ring)
    ensures r.Ok()
  {
    Ring((t + 1) % NPROC, (t + 1) % NPROC, TopRow(t))
  }

  ghost predicate Cast(procs: seq<Proc>, running: int, queued: int, asleep: int) {
    && |procs| == NPROC
    && (forall x :: 0 <= x < 3 ==> procs[x].qn == 0)
    && (forall x :: 3 <= x < NPROC ==> procs[x].state == UNUSED)
    && 0 <= running < 3 && procs[running].state == RUNNING
    && 0 <= queued < 3 && procs[queued].state == RUNNABLE
    && 0 <= asleep < 3 && SleepsOn(procs[asleep], asleep + 1)
  }

  /** Turn t: one process runs, the next is queued and the third is asleep. */
  ghost predicate TurnAt(s: Sched, t: nat) {
    On(s, TopRing(t)) && Cast(s.procs, (t + 1) % 3, (t + 2) % 3, t % 3)
  }

  lemma NextRing(t: nat, a: Ring)
    requires t < NPROC && a == Append(TopRing(t), t % 3)
    ensures TakeFirst(a) == TopRing(t + 1) && a.face != -1 && a.row[a.face] == (t + 2) % 3
    ensures TopRow(t)[NPROC - 1] != t % 3
  {
    assert a.back == (t + 2) % NPROC;
    assert a.row == TopRow(t + 1);
    assert a.face == (t + 1) % NPROC;
  }

  /** The running process wakes the sleeper while the other one is queued, sleeps, and
      the queued one is dispatched.  The queue never empties. */
  lemma TurnAdvance(s: Sched, t: nat) returns (n: Sched)
    requires TurnAt(s, t) && t < NPROC
    ensures TurnAt(n, t + 1)
  {
    var r, q, z := (t + 1) % 3, (t + 2) % 3, t % 3;
    assert (t + 1 + 1) % 3 == q && (t + 1 + 2) % 3 == z;
    var a := Append(TopRing(t), z);
    NextRing(t, a);
    n := Rotate(s, TopRing(t), a, TopRing(t + 1), r, q, z);
  }

  lemma Rotate(s: Sched, before: Ring, a: Ring, after: Ring, r: nat, q: nat, z: nat) returns (n: Sched)
    requires On(s, before) && Cast(s.procs, r, q, z) && r != z && q != z && r != q && before.row[NPROC - 1] != z
    requires a == Append(before, z) && a.face != -1 && a.row[a.face] == q && TakeFirst(a) == after
    ensures On(n, after) && Cast(n.procs, q, z, r)
  {
    OneAsleep(s.procs, r, q, z);
    var m := WakeTop(s, before, z);
    var u := SleepTop(m, a, r);
    n := DispatchTop(u, a, q);
    CastTurned(s.procs, m.procs, n.procs, r, q, z);
  }

  lemma OneAsleep(procs: seq<Proc>, r: nat, q: nat, z: nat)
    requires Cast(procs, r, q, z) && r != z && q != z && r != q
    ensures forall x :: 0 <= x < NPROC && x != z ==> !SleepsOn(procs[x], z + 1)
  {
    forall x | 0 <= x < NPROC && x != z
      ensures !SleepsOn(procs[x], z + 1)
    {
      assert x < 3 ==> x == r || x == q;
    }
  }

  lemma CastTurned(before: seq<Proc>, m: seq<Proc>, after: seq<Proc>, r: nat, q: nat, z: nat)
    requires Cast(before, r, q, z) && r != z && q != z && r != q && |m| == NPROC && m[z].state == RUNNABLE && m[z].qn == 0
    requires forall x :: 0 <= x < NPROC && x != z ==> m[x] == before[x]
    requires var u := m[r := m[r].(state := SLEEPING, chan := r + 1)];
             after == u[q := u[q].(state := RUNNING, waittime := 0, curtime := 0)]
    ensures Cast(after, q, z, r)
  {
  }

  /** From boot: the first process runs, forks two more and sleeps. */
  lemma FirstRuns() returns (s: Sched)
    ensures On(s, TakeFirst(Append(Empty(), 0))) && s.procs == Boot().procs[0 := Proc(RUNNING, 0, 1, 0, 0, 0)]
  {
    BootReachable();
    var a := AllocTop(Boot(), Empty(), 0, -1);
    var b := ReadyTop(a, Empty(), 0, -1);
    s := DispatchTop(b, Append(Empty(), 0), 0);
  }

  /** Running process 0 forks process p. */
  lemma Fork(s: Sched, r: Ring, p: nat) returns (n: Sched)
    requires On(s, r) && 1 <= p < 3 && (r.face != -1 ==> r.row[NPROC - 1] != p)
    requires forall x :: 0 <= x < p ==> s.procs[x].state != UNUSED && s.procs[x].pid == x + 1
    requires s.procs[0].state == RUNNING && forall x :: p <= x < NPROC ==> s.procs[x] == Proc(UNUSED, 0, 0, 0, 0, 0)
    ensures On(n, Append(r, p)) && n.procs == s.procs[p := Proc(RUNNABLE, 0, p + 1, 0, 0, 0)]
  {
    MayFork(s, p);
    var m := AllocTop(s, r, p, 0);
    MayStart(m, p);
    n := ReadyTop(m, r, p, 0);
    assert m.procs[p := m.procs[p].(state := RUNNABLE)] == s.procs[p := Proc(RUNNABLE, 0, p + 1, 0, 0, 0)];
  }

  lemma MayFork(s: Sched, p: nat)
    requires Shape(s) && 1 <= p < 3 && s.procs[0].state == RUNNING
    requires forall x :: 0 <= x < p ==> s.procs[x].state != UNUSED && s.procs[x].pid == x + 1
    requires forall x :: p <= x < NPROC ==> s.procs[x] == Proc(UNUSED, 0, 0, 0, 0, 0)
    ensures Enabled(s, Alloc(p, p + 1, 0))
  {
    assert MadeBy(s, p, 0);
  }

  lemma MayStart(s: Sched, p: nat)
    requires Shape(s) && 1 <= p < 3 && s.procs[0].state == RUNNING && s.procs[p].state == EMBRYO
    ensures Enabled(s, Ready(p, 0))
  {
    assert MadeBy(s, p, 0);
  }

  lemma FirstRings(r0: Ring, r1: Ring, r2: Ring)
    requires r0 == TakeFirst(Append(Empty(), 0)) && r1 == Append(r0, 1) && r2 == Append(r1, 2)
    ensures r0.face == -1 && r1.row[NPROC - 1] == -1 && r2.face != -1 && r2.row[r2.face] == 1 && TakeFirst(r2) == TopRing(0)
  {
    assert r2.back == 1 && r2.face == 0;
    assert r2.row == TopRow(0);
  }

  lemma FirstTurn() returns (n: Sched)
    ensures TurnAt(n, 0)
  {
    var s := FirstRuns();
    var r0 := TakeFirst(Append(Empty(), 0));
    var r1 := Append(r0, 1);
    var r2 := Append(r1, 2);
    FirstRings(r0, r1, r2);
    n := FirstForks(s, r0, r1, r2);
  }

  lemma FirstForks(s: Sched, r0: Ring, r1: Ring, r2: Ring) returns (n: Sched)
    requires On(s, r0) && s.procs == Boot().procs[0 := Proc(RUNNING, 0, 1, 0, 0, 0)]
    requires r0.face == -1 && r1 == Append(r0, 1) && r1.row[NPROC - 1] == -1 && r2 == Append(r1, 2)
    requires r2.face != -1 && r2.row[r2.face] == 1 && TakeFirst(r2) == TopRing(0)
    ensures TurnAt(n, 0)
  {
    assert forall x :: 1 <= x < NPROC ==> s.procs[x] == Proc(UNUSED, 0, 0, 0, 0, 0);
    var a := Fork(s, r0, 1);
    n := SecondFork(a, r1, r2);
  }

  lemma SecondFork(s: Sched, r1: Ring, r2: Ring) returns (n: Sched)
    requires On(s, r1) && r1.row[NPROC - 1] == -1 && r2 == Append(r1, 2)
    requires r2.face != -1 && r2.row[r2.face] == 1 && TakeFirst(r2) == TopRing(0)
    requires s.procs[0] == Proc(RUNNING, 0, 1, 0, 0, 0) && s.procs[1] == Proc(RUNNABLE, 0, 2, 0, 0, 0)
    requires forall x :: 2 <= x < NPROC ==> s.procs[x] == Proc(UNUSED, 0, 0, 0, 0, 0)
    ensures TurnAt(n, 0)
  {
    var b := Fork(s, r1, 2);
    var u := SleepTop(b, r2, 0);
    n := DispatchTop(u, r2, 1);
  }

  lemma {:induction false} TurnReachable(t: nat) returns (s: Sched)
    requires t <= NPROC
    ensures TurnAt(s, t)
  {
    if t == 0 {
      s := FirstTurn();
    } else {
      var m := TurnReachable(t - 1);
      s := TurnAdvance(m, t - 1);
    }
  }

  /** Placement is false of the code: in this reachable state process 1 has been woken
      and is in no queue.  Slot 63 of the top queue still names it from its last turn
      there, the second queue is empty, and the scan of that queue reads the slot. */
  lemma LossReachable()
    ensures exists e :: Reachable(e) && Placed(e) && 1 in e.lost && e.procs[1].state == RUNNABLE && forall i :: !Live(e.qs, i, 1)
  {
    var s := TurnReachable(NPROC);
    assert TopRow(NPROC)[NPROC - 1] == 1;
    var e := WakeTop(s, TopRing(NPROC), 1);
    ReachPlaced(e);
  }
}
