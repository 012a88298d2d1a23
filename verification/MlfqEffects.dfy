/** What wakeup, exit, a tick and a dispatch do to each process and each queue, said
    process by process. */
module MlfqEffects {
  import opened RingSpec
  import opened MlfqSpec
  import opened MlfqRuns
  import opened MlfqLoss

  // ----- wakeup -------------------------------------------------------------

  /** From s to n the sleepers on chan have been made runnable in the queues they had,
      and nobody else has changed. */
  ghost predicate Awake(s: Sched, n: Sched, chan: nat) {
    && |s.procs| == |n.procs| == NPROC
    && forall x :: IsProc(x) ==>
         if SleepsOn(s.procs[x], chan)
         then n.procs[x].state == RUNNABLE && n.procs[x].qn == s.procs[x].qn && n.procs[x].pid == s.procs[x].pid && n.procs[x].curtime == 0
         else n.procs[x] == s.procs[x]
  }

  /** The processes below slot k asleep on chan in queue j, in slot order, without
      those in `out`. */
  function Sleepers(procs: seq<Proc>, k: nat, chan: nat, j: int, out: set<int>): seq<int>
    requires k <= |procs|
  {
    if k == 0 then []
    else
      Sleepers(procs, k - 1, chan, j, out) +
      if SleepsOn(procs[k - 1], chan) && procs[k - 1].qn == j && k - 1 !in out then [k - 1] else []
  }

  /** wakeup's loop up to slot k: the processes ... */
  ghost predicate ProcsTo(s: Sched, n: Sched, k: nat, chan: nat)
    requires k <= NPROC
  {
    && Placed(s) && Placed(n) && n.below == s.below && s.lost <= n.lost
    && (forall x :: x in n.lost && x !in s.lost ==> 0 <= x < k)
    && (forall x :: 0 <= x < k ==>
          if SleepsOn(s.procs[x], chan)
          then n.procs[x].state == RUNNABLE && n.procs[x].qn == s.procs[x].qn && n.procs[x].pid == s.procs[x].pid && n.procs[x].curtime == 0
          else n.procs[x] == s.procs[x])
    && (forall x :: k <= x < NPROC ==> n.procs[x] == s.procs[x])
  }

  /** ... and the queues. */
  ghost predicate QueuesTo(s: Sched, n: Sched, k: nat, chan: nat)
    requires Shape(s) && Shape(n) && k <= NPROC
  {
    forall j :: 0 <= j < NQUEUE ==> Window(n.qs[j]) == Window(s.qs[j]) + Sleepers(s.procs, k, chan, j, n.lost)
  }

  ghost predicate WokenTo(s: Sched, n: Sched, k: nat, chan: nat)
    requires k <= NPROC
  {
    ProcsTo(s, n, k, chan) && QueuesTo(s, n, k, chan)
  }

  /** A process lost later does not change who was queued before. */
  lemma {:induction false} SleepersOut(procs: seq<Proc>, k: nat, chan: nat, j: int, out: set<int>, more: set<int>)
    requires k <= |procs| && forall x :: 0 <= x < k ==> (x in out <==> x in more)
    ensures Sleepers(procs, k, chan, j, out) == Sleepers(procs, k, chan, j, more)
  {
    if k > 0 {
      SleepersOut(procs, k - 1, chan, j, out, more);
    }
  }

  lemma {:induction false} WakeLoop(s: Sched, k: nat, chan: nat)
    requires Placed(s) && k <= NPROC
    ensures WokenTo(s, WakeTo(s, k, chan), k, chan)
  {
    if k > 0 {
      WakeLoop(s, k - 1, chan);
      WakeTurn(s, WakeTo(s, k - 1, chan), WakeTo(s, k, chan), k - 1, k, chan);
    }
  }

  /** One turn. */
  lemma WakeTurn(s: Sched, m: Sched, n: Sched, p: nat, next: nat, chan: nat)
    requires p < NPROC && next == p + 1 && WokenTo(s, m, p, chan) && 0 <= m.procs[p].qn < NQUEUE
    requires n == if SleepsOn(m.procs[p], chan) then Wake(m, p) else m
    ensures WokenTo(s, n, next, chan)
  {
    ProcsTurn(s, m, n, p, next, chan);
    forall j | 0 <= j < NQUEUE
      ensures Window(n.qs[j]) == Window(s.qs[j]) + Sleepers(s.procs, next, chan, j, n.lost)
    {
      WakeTurnQueue(s, m, n, p, chan, j);
      Longer(s.procs, Window(s.qs[j]), Window(m.qs[j]), Window(n.qs[j]), p, next, chan, j, m.lost, n.lost);
    }
  }

  lemma Longer(procs: seq<Proc>, w: seq<int>, m: seq<int>, n: seq<int>, p: nat, next: nat, chan: nat, j: int, out: set<int>, more: set<int>)
    requires p < |procs| && next == p + 1 && (forall x :: 0 <= x < p ==> (x in out <==> x in more))
    requires m == w + Sleepers(procs, p, chan, j, out)
    requires n == m + if SleepsOn(procs[p], chan) && procs[p].qn == j && p !in more then [p as int] else []
    ensures n == w + Sleepers(procs, next, chan, j, more)
  {
    SleepersOut(procs, p, chan, j, out, more);
  }

  lemma ProcsTurn(s: Sched, m: Sched, n: Sched, p: nat, next: nat, chan: nat)
    requires p < NPROC && next == p + 1 && ProcsTo(s, m, p, chan) && 0 <= m.procs[p].qn < NQUEUE
    requires n == if SleepsOn(m.procs[p], chan) then Wake(m, p) else m
    ensures ProcsTo(s, n, next, chan) && forall x :: 0 <= x < p ==> (x in m.lost <==> x in n.lost)
  {
    assert IsProc(p);
    if SleepsOn(m.procs[p], chan) {
      WakeOne(m, p);
      WakeOneFresh(m, p);
    }
  }

  lemma WakeOneFresh(m: Sched, p: nat)
    requires Placed(m) && IsProc(p) && m.procs[p].state == SLEEPING && 0 <= m.procs[p].qn < NQUEUE
    ensures p !in m.lost
    ensures Wake(m, p).procs[p].pid == m.procs[p].pid && Wake(m, p).procs[p].curtime == 0
  {
    var np := m.procs[p].(state := RUNNABLE, curtime := 0);
    assert QueueNumberOk(m.procs[p]);
    NotRunnable(m, p, np);
    PushPlaces(m.(procs := m.procs[p := np]), p);
  }

  lemma WakeTurnQueue(s: Sched, m: Sched, n: Sched, p: nat, chan: nat, j: int)
    requires p < NPROC && Placed(m) && |s.procs| == NPROC && m.procs[p] == s.procs[p] && 0 <= j < NQUEUE && 0 <= m.procs[p].qn < NQUEUE
    requires n == if SleepsOn(m.procs[p], chan) then Wake(m, p) else m
    ensures |n.qs| == NQUEUE
    ensures Window(n.qs[j]) == Window(m.qs[j]) + if SleepsOn(s.procs[p], chan) && s.procs[p].qn == j && p !in n.lost then [p] else []
  {
    assert IsProc(p);
    if SleepsOn(m.procs[p], chan) {
      var np := m.procs[p].(state := RUNNABLE, curtime := 0);
      assert QueueNumberOk(m.procs[p]);
      NotRunnable(m, p, np);
      PushPlaces(m.(procs := m.procs[p := np]), p);
    }
  }

  /** wakeup makes exactly the sleepers on the channel runnable, and puts those it does
      not lose at the tails of their queues in slot order. */
  lemma WakeupWakes(s: Sched, chan: nat)
    requires Placed(s)
    ensures var n := WakeFrom(s, 0, chan);
            && Placed(n) && s.lost <= n.lost && n.below == s.below && Awake(s, n, chan)
            && forall j :: 0 <= j < NQUEUE ==> Window(n.qs[j]) == Window(s.qs[j]) + Sleepers(s.procs, NPROC, chan, j, n.lost)
  {
    WakeSplit(s, NPROC, chan);
    WakeLoop(s, NPROC, chan);
  }

  /** A process that sleeps on a channel is runnable again, in the queue it had, after a
      wakeup on that channel, and sleeps on through one on another. */
  lemma SleepsUntilWoken(s: Sched, p: int, chan: nat, other: nat)
    requires Placed(s) && Enabled(s, Sleep(p, chan)) && other != chan
    ensures var n := Next(s, Sleep(p, chan));
            && Placed(n) && n.qs == s.qs && (forall x :: IsProc(x) && x != p ==> n.procs[x] == s.procs[x])
            && WakeFrom(n, 0, chan).procs[p].state == RUNNABLE && WakeFrom(n, 0, chan).procs[p].qn == s.procs[p].qn
            && WakeFrom(n, 0, other).procs[p] == n.procs[p] && n.procs[p].state == SLEEPING
  {
    var n := Next(s, Sleep(p, chan));
    StepPlaced(s, Sleep(p, chan));
    WakeupWakes(n, chan);
    WakeupWakes(n, other);
  }

  // ----- exit ---------------------------------------------------------------

  /** exit leaves a zombie; a parent asleep in wait is runnable, and so is init when
      there are dead children to hand over; nobody else has changed. */
  lemma ExitWakes(s: Sched, p: int, parent: nat, reaper: nat, abandoned: bool)
    requires Placed(s) && Enabled(s, Exit(p, parent, reaper, abandoned))
    ensures var n := Next(s, Exit(p, parent, reaper, abandoned));
            && |n.procs| == NPROC && n.procs[p] == s.procs[p].(state := ZOMBIE)
            && forall x :: IsProc(x) && x != p ==>
                 if SleepsOn(s.procs[x], parent) || (abandoned && SleepsOn(s.procs[x], reaper))
                 then n.procs[x].state == RUNNABLE && n.procs[x].qn == s.procs[x].qn && n.procs[x].pid == s.procs[x].pid
                 else n.procs[x] == s.procs[x]
  {
    WakeupWakes(s, parent);
    var a := WakeFrom(s, 0, parent);
    if abandoned {
      WakeupWakes(a, reaper);
    }
  }

  // ----- the clock ----------------------------------------------------------

  /** A tick is one more tick run for every running process, and one more waited for
      every other. */
  lemma TickCounts(s: Sched, p: int)
    requires Placed(s) && IsProc(p)
    ensures Enabled(s, Tick) && |Next(s, Tick).procs| == NPROC
    ensures var a, b := s.procs[p], Next(s, Tick).procs[p];
            && b.state == a.state && b.chan == a.chan && b.pid == a.pid && b.qn == a.qn
            && (if a.state == RUNNING then b.curtime == a.curtime + 1 && b.waittime == a.waittime
                else b.waittime == a.waittime + 1 && b.curtime == a.curtime)
            && Next(s, Tick).qs == s.qs && Next(s, Tick).lost == s.lost
  {
  }

  /** The state after k ticks. */
  ghost function Ticks(s: Sched, k: nat): (n: Sched)
    requires Placed(s)
    ensures Placed(n)
  {
    if k == 0 then s
    else
      var m := Ticks(s, k - 1);
      StepPlaced(m, Tick);
      Next(m, Tick)
  }

  function Doubled(q: nat): nat {
    if q == 0 then 1 else 2 * Doubled(q - 1)
  }

  lemma {:induction false} TicksRun(s: Sched, p: int, k: nat)
    requires Placed(s) && IsProc(p) && s.procs[p].state == RUNNING
    ensures var n := Ticks(s, k).procs[p]; n.state == RUNNING && n.qn == s.procs[p].qn && n.curtime == s.procs[p].curtime + k
  {
    if k > 0 {
      TicksRun(s, p, k - 1);
      TickCounts(Ticks(s, k - 1), p);
    }
  }

  /** A process that has just been dispatched is made to yield once it has run for 1, 2,
      4, 8 or 16 ticks, by its queue, and not before. */
  lemma SliceUsedUp(s: Sched, p: int, k: nat)
    requires Placed(s) && IsProc(p) && s.procs[p].state == RUNNING && s.procs[p].curtime == 0
    ensures 0 <= s.procs[p].qn < NQUEUE
    ensures Enabled(Ticks(s, k), Yield(p)) <==> k >= Doubled(s.procs[p].qn)
  {
    TicksRun(s, p, k);
    assert QueueNumberOk(s.procs[p]);
    assert Doubled(1) == 2 && Doubled(2) == 4 && Doubled(3) == 8 && Doubled(4) == 16;
  }

  // ----- dispatch -----------------------------------------------------------

  /** The highest queue with an entry. */
  ghost predicate Highest(a: Sched, i: int)
    requires Shape(a)
  {
    0 <= i < NQUEUE && Window(a.qs[i]) != [] && forall j :: 0 <= j < i ==> Window(a.qs[j]) == []
  }

  lemma HighestFirst(a: Sched, i: int)
    requires Shape(a) && Highest(a, i)
    ensures FirstQueue(a.qs, 0) == i && Window(a.qs[i])[0] == a.qs[i].row[a.qs[i].face]
  {
    var q := FirstQueue(a.qs, 0);
    assert forall j :: 0 <= j < NQUEUE ==> (Window(a.qs[j]) == [] <==> a.qs[j].face == -1);
    assert q == i;
    assert a.qs[i].Slot(0) == a.qs[i].face;
  }

  lemma PopTakes(a: Sched, i: int, p: int)
    requires Placed(a) && Highest(a, i) && p == Window(a.qs[i])[0]
    ensures var n := PopAndRun(a);
            && IsProc(p) && |n.procs| == NPROC
            && n.procs == a.procs[p := a.procs[p].(state := RUNNING, waittime := 0, curtime := 0)]
            && n.qs == a.qs[i := n.qs[i]] && Window(n.qs[i]) == Window(a.qs[i])[1..] && n.lost == a.lost
  {
    HighestFirst(a, i);
    TakeFirstWindow(a.qs[i]);
    assert Live(a.qs, i, p);
  }

  /** After the aging pass the scheduler runs the head of the highest queue that is not
      empty, with fresh times; nothing else changes. */
  lemma DispatchTakes(s: Sched, i: int, p: int)
    requires Placed(s) && Highest(AgeFrom(s, 1), i) && p == Window(AgeFrom(s, 1).qs[i])[0]
    ensures Enabled(s, Dispatch)
    ensures var a, n := AgeFrom(s, 1), Next(s, Dispatch);
            && IsProc(p) && |n.procs| == NPROC
            && n.procs == a.procs[p := a.procs[p].(state := RUNNING, waittime := 0, curtime := 0)]
            && n.qs == a.qs[i := n.qs[i]] && Window(n.qs[i]) == Window(a.qs[i])[1..] && n.lost == a.lost
  {
    PopTakes(AgeFrom(s, 1), i, p);
  }
}
