/** sleep and wakeup with their locks, as interleaved steps of any number of
    processes, and sleep locks on top of them. */
module SleepWakeup {

  const PT: int := 0              // ptable.lock
  const NONE: int := -1
  const SCHED: int := -2          // ptable.lock is held by a scheduler

  datatype RunState = Running | Runnable | Sleeping

  /** Where a process stands.
      Hold: between acquire and release of lock l.
      Sleep1..3: in sleep(c): about to take ptable.lock, about to release the
      condition's lock, about to mark itself SLEEPING.
      Gone: switched out.  Back: switched in again, holding ptable.lock.
      Relock: about to take the condition's lock again.
      Wake0, Wake1: in wakeup(c), before and inside wakeup1, holding l besides. */
  datatype Pc =
    | Out
    | Hold(l: int)
    | Sleep1(c: int)
    | Sleep2(c: int)
    | Sleep3(c: int)
    | Gone(c: int)
    | Back(c: int)
    | Relock(c: int)
    | Wake0(c: int, l: int)
    | Wake1(c: int, l: int, i: int)

  /** `owes` are the channels whose condition the process made true without having
      finished wakeup1 on them since; `has` the sleep locks it has acquired. */
  datatype Proc = Proc(state: RunState, chan: int, pc: Pc, owes: set<int>, has: set<int>)

  /** Condition c is guarded by lock lockOf[c]; isLock[c] says that it is the
      condition "this sleep lock is not locked". */
  datatype State = State(procs: seq<Proc>, pt: int, lk: map<int, int>, cond: map<int, bool>, lockOf: map<int, int>, isLock: set<int>)

  predicate IsProc(s: State, p: int) {
    0 <= p < |s.procs|
  }

  predicate HoldsPt(pc: Pc) {
    match pc
    case Hold(l) => l == PT
    case Sleep2(c) => true
    case Sleep3(c) => true
    case Back(c) => true
    case Wake1(c, l, i) => true
    case _ => false
  }

  /** The process holds lock l, other than ptable.lock. */
  predicate HoldsLk(s: State, pc: Pc, l: int) {
    l != PT && l in s.lk &&
    match pc
    case Hold(m) => m == l
    case Sleep1(c) => LockOf(s, c) == l
    case Sleep2(c) => LockOf(s, c) == l
    case Wake0(c, m) => m == l
    case Wake1(c, m, i) => m == l
    case _ => false
  }

  function LockOf(s: State, c: int): int {
    if c in s.lockOf then s.lockOf[c] else NONE
  }

  function Cond(s: State, c: int): bool {
    c in s.cond && s.cond[c]
  }

  // ----- the invariant ------------------------------------------------------

  /** Locks are held by whom the holder's position says. */
  ghost predicate LocksOk(s: State) {
    && (forall l :: l in s.lk ==> l > PT)
    && (forall p :: IsProc(s, p) ==> (s.pt == p <==> HoldsPt(s.procs[p].pc)))
    && (forall p, l :: IsProc(s, p) && l in s.lk && l != PT ==> (s.lk[l] == p <==> HoldsLk(s, s.procs[p].pc, l)))
  }

  /** A process switched out is SLEEPING or RUNNABLE on its channel, others run. */
  ghost predicate StatesOk(s: State) {
    forall p :: IsProc(s, p) ==> StateOk(s, s.procs[p])
  }

  predicate StateOk(s: State, q: Proc) {
    match q.pc
    case Gone(c) => q.chan == c && q.state != Running
    case Sleep1(c) => q.state == Running && LockOf(s, c) != PT && LockOf(s, c) in s.lk && !Cond(s, c)
    case Sleep2(c) => q.state == Running && LockOf(s, c) != PT && LockOf(s, c) in s.lk && !Cond(s, c)
    case Wake1(c, l, i) => q.state == Running && 0 <= i <= |s.procs|
    case _ => q.state == Running
  }

  /** The process is asleep on c, or certain to be before it lets ptable.lock go. */
  predicate Needs(s: State, p: int, c: int)
    requires IsProc(s, p)
  {
    s.procs[p].pc == Sleep3(c) || (s.procs[p].state == Sleeping && s.procs[p].chan == c)
  }

  /** Process q has yet to wake p on c. */
  predicate WillWake(s: State, q: int, p: int, c: int) {
    IsProc(s, q) && c in s.procs[q].owes && !(s.procs[q].pc.Wake1? && s.procs[q].pc.c == c && s.procs[q].pc.i > p)
  }

  ghost predicate Pending(s: State, p: int, c: int) {
    exists q :: WillWake(s, q, p, c)
  }

  /** No lost wakeup. */
  ghost predicate NoLost(s: State) {
    forall p, c :: IsProc(s, p) && Needs(s, p, c) && Cond(s, c) ==> Pending(s, p, c)
  }

  predicate Has(s: State, p: int, c: int) {
    IsProc(s, p) && c in s.procs[p].has
  }

  /** Whoever has a sleep lock has it alone, and it is locked. */
  ghost predicate Alone(s: State) {
    && (forall p, c :: Has(s, p, c) ==> c in s.isLock && !Cond(s, c))
    && (forall p, q, c :: Has(s, p, c) && Has(s, q, c) ==> p == q)
  }

  ghost predicate Inv(s: State) {
    LocksOk(s) && StatesOk(s) && NoLost(s) && Alone(s)
  }

  // ----- steps --------------------------------------------------------------

  datatype Step =
    | Acquire(p: int, l: int)
    | Release(p: int)
    | Lower(p: int, c: int)
    | Raise(p: int, c: int)
    | Doze(p: int, c: int)
    | TakePt(p: int)
    | DropLk(p: int)
    | SwitchOut(p: int)
    | SchedTake
    | SchedDrop
    | Dispatch(p: int)
    | Return(p: int)
    | Retake(p: int)
    | WakeCall(p: int, c: int)
    | WakeTake(p: int)
    | WakeOne(p: int)
    | WakeEnd(p: int)
    | Kill(p: int, q: int)

  function At(s: State, p: int, pc: Pc): seq<Proc>
    requires IsProc(s, p)
  {
    s.procs[p := s.procs[p].(pc := pc)]
  }

  /** acquire, as one atomic exchange on a free lock. */
  ghost predicate DoAcquire(s: State, n: State, p: int, l: int) {
    && IsProc(s, p) && s.procs[p].pc == Out
    && if l == PT then s.pt == NONE && n == s.(procs := At(s, p, Hold(PT)), pt := p)
       else l in s.lk && s.lk[l] == NONE && n == s.(procs := At(s, p, Hold(l)), lk := s.lk[l := p])
  }

  ghost predicate DoRelease(s: State, n: State, p: int) {
    && IsProc(s, p) && s.procs[p].pc.Hold?
    && var l := s.procs[p].pc.l;
    if l == PT then n == s.(procs := At(s, p, Out), pt := NONE)
    else l in s.lk && n == s.(procs := At(s, p, Out), lk := s.lk[l := NONE])
  }

  /** The condition becomes false, under its lock; acquiresleep's last line does this
      to the lock it found free. */
  ghost predicate DoLower(s: State, n: State, p: int, c: int) {
    && IsProc(s, p) && c in s.cond && s.procs[p].pc == Hold(LockOf(s, c))
    && (c in s.isLock ==> Cond(s, c))
    && n == s.(cond := s.cond[c := false], procs := s.procs[p := s.procs[p].(has := s.procs[p].has + if c in s.isLock then {c} else {})])
  }

  /** The condition becomes true, under its lock; a wakeup is owed.  releasesleep does
      this to a lock the process has. */
  ghost predicate DoRaise(s: State, n: State, p: int, c: int) {
    && IsProc(s, p) && c in s.cond && s.procs[p].pc == Hold(LockOf(s, c))
    && (c in s.isLock ==> c in s.procs[p].has)
    && n == s.(cond := s.cond[c := true],
               procs := s.procs[p := s.procs[p].(owes := s.procs[p].owes + {c}, has := s.procs[p].has - {c})])
  }

  /** The condition is found false, under its lock: sleep is called. */
  ghost predicate DoDoze(s: State, n: State, p: int, c: int) {
    && IsProc(s, p) && c in s.cond && s.procs[p].pc == Hold(LockOf(s, c)) && !Cond(s, c) && (LockOf(s, c) == PT || LockOf(s, c) in s.lk)
    && n == s.(procs := At(s, p, if LockOf(s, c) == PT then Sleep3(c) else Sleep1(c)))
  }

  ghost predicate DoTakePt(s: State, n: State, p: int) {
    && IsProc(s, p) && s.procs[p].pc.Sleep1? && s.pt == NONE
    && n == s.(procs := At(s, p, Sleep2(s.procs[p].pc.c)), pt := p)
  }

  ghost predicate DoDropLk(s: State, n: State, p: int) {
    && IsProc(s, p) && s.procs[p].pc.Sleep2?
    && n == s.(procs := At(s, p, Sleep3(s.procs[p].pc.c)), lk := s.lk[LockOf(s, s.procs[p].pc.c) := NONE])
  }

  /** chan and state are set, and sched hands ptable.lock to the scheduler. */
  ghost predicate DoSwitchOut(s: State, n: State, p: int) {
    && IsProc(s, p) && s.procs[p].pc.Sleep3?
    && var c := s.procs[p].pc.c;
    n == s.(procs := s.procs[p := s.procs[p].(pc := Gone(c), state := Sleeping, chan := c)], pt := SCHED)
  }

  ghost predicate DoSched(s: State, n: State, from: int, to: int) {
    s.pt == from && n == s.(pt := to)
  }

  ghost predicate DoDispatch(s: State, n: State, p: int) {
    && IsProc(s, p) && s.pt == SCHED && s.procs[p].pc.Gone? && s.procs[p].state == Runnable
    && n == s.(procs := s.procs[p := s.procs[p].(pc := Back(s.procs[p].pc.c), state := Running)], pt := p)
  }

  /** After sched: chan is cleared and ptable.lock released, unless it is the
      condition's own lock. */
  ghost predicate DoReturn(s: State, n: State, p: int) {
    && IsProc(s, p) && s.procs[p].pc.Back?
    && var c := s.procs[p].pc.c;
    if LockOf(s, c) == PT then n == s.(procs := s.procs[p := s.procs[p].(pc := Hold(PT), chan := 0)])
    else n == s.(procs := s.procs[p := s.procs[p].(pc := Relock(c), chan := 0)], pt := NONE)
  }

  ghost predicate DoRetake(s: State, n: State, p: int) {
    && IsProc(s, p) && s.procs[p].pc.Relock?
    && var l := LockOf(s, s.procs[p].pc.c);
    l != PT && l in s.lk && s.lk[l] == NONE && n == s.(procs := At(s, p, Hold(l)), lk := s.lk[l := p])
  }

  /** wakeup is called, with or without a lock held; wakeup1 directly under
      ptable.lock. */
  ghost predicate DoWakeCall(s: State, n: State, p: int, c: int) {
    && IsProc(s, p)
    && match s.procs[p].pc
       case Out => n == s.(procs := At(s, p, Wake0(c, NONE)))
       case Hold(l) => n == s.(procs := At(s, p, if l == PT then Wake1(c, PT, 0) else Wake0(c, l)))
       case _ => false
  }

  ghost predicate DoWakeTake(s: State, n: State, p: int) {
    && IsProc(s, p) && s.procs[p].pc.Wake0? && s.procs[p].pc.l != PT && s.pt == NONE
    && n == s.(procs := At(s, p, Wake1(s.procs[p].pc.c, s.procs[p].pc.l, 0)), pt := p)
  }

  /** One turn of wakeup1's loop. */
  ghost predicate DoWakeOne(s: State, n: State, p: int) {
    && IsProc(s, p) && s.procs[p].pc.Wake1? && 0 <= s.procs[p].pc.i < |s.procs|
    && var c, i := s.procs[p].pc.c, s.procs[p].pc.i;
    var woken := if s.procs[i].state == Sleeping && s.procs[i].chan == c then s.procs[i := s.procs[i].(state := Runnable)] else s.procs;
    n == s.(procs := woken[p := woken[p].(pc := Wake1(c, s.procs[p].pc.l, i + 1))])
  }

  ghost predicate DoWakeEnd(s: State, n: State, p: int) {
    && IsProc(s, p) && s.procs[p].pc.Wake1? && s.procs[p].pc.i == |s.procs|
    && var c, l := s.procs[p].pc.c, s.procs[p].pc.l;
    n == s.(procs := s.procs[p := s.procs[p].(pc := if l == NONE then Out else Hold(l), owes := s.procs[p].owes - {c})],
            pt := if l == PT then p else NONE)
  }

  /** kill, under ptable.lock, makes a sleeper runnable. */
  ghost predicate DoKill(s: State, n: State, p: int, q: int) {
    && IsProc(s, p) && s.procs[p].pc == Hold(PT) && IsProc(s, q)
    && n == if s.procs[q].state == Sleeping then s.(procs := s.procs[q := s.procs[q].(state := Runnable)]) else s
  }

  ghost predicate Next(s: State, n: State, step: Step) {
    match step
    case Acquire(p, l) => DoAcquire(s, n, p, l)
    case Release(p) => DoRelease(s, n, p)
    case Lower(p, c) => DoLower(s, n, p, c)
    case Raise(p, c) => DoRaise(s, n, p, c)
    case Doze(p, c) => DoDoze(s, n, p, c)
    case TakePt(p) => DoTakePt(s, n, p)
    case DropLk(p) => DoDropLk(s, n, p)
    case SwitchOut(p) => DoSwitchOut(s, n, p)
    case SchedTake => DoSched(s, n, NONE, SCHED)
    case SchedDrop => DoSched(s, n, SCHED, NONE)
    case Dispatch(p) => DoDispatch(s, n, p)
    case Return(p) => DoReturn(s, n, p)
    case Retake(p) => DoRetake(s, n, p)
    case WakeCall(p, c) => DoWakeCall(s, n, p, c)
    case WakeTake(p) => DoWakeTake(s, n, p)
    case WakeOne(p) => DoWakeOne(s, n, p)
    case WakeEnd(p) => DoWakeEnd(s, n, p)
    case Kill(p, q) => DoKill(s, n, p, q)
  }

  // ----- each step keeps the invariant --------------------------------------

  /** What is pending stays pending: nobody drops a debt or passes a sleeper. */
  lemma StillPending(s: State, n: State, p: int, c: int)
    requires Pending(s, p, c) && forall q :: WillWake(s, q, p, c) ==> WillWake(n, q, p, c)
    ensures Pending(n, p, c)
  {
    var q :| WillWake(s, q, p, c);
    assert WillWake(n, q, p, c);
  }

  lemma StillAlone(s: State, n: State)
    requires Alone(s) && n.isLock == s.isLock && (forall c :: Cond(n, c) ==> Cond(s, c)) && forall p, c :: Has(n, p, c) ==> Has(s, p, c)
    ensures Alone(n)
  {
  }

  /** A step of p that sleeps on nothing new, owes no less and raises no condition. */
  lemma QuietNoLost(s: State, n: State, p: int)
    requires NoLost(s) && IsProc(s, p) && |n.procs| == |s.procs| && (forall c :: Cond(n, c) ==> Cond(s, c))
    requires forall q :: IsProc(s, q) && q != p ==> n.procs[q] == s.procs[q]
    requires n.procs[p].owes >= s.procs[p].owes && (n.procs[p].pc.Wake1? ==> n.procs[p].pc.i <= 0)
    requires forall c :: Needs(n, p, c) && Cond(n, c) ==> Needs(s, p, c)
    ensures NoLost(n)
  {
    forall q, c | IsProc(n, q) && Needs(n, q, c) && Cond(n, c)
      ensures Pending(n, q, c)
    {
      assert Needs(s, q, c);
      StillPending(s, n, q, c);
    }
  }

  lemma AcquireKeeps(s: State, n: State, p: int, l: int)
    requires Inv(s) && DoAcquire(s, n, p, l)
    ensures Inv(n)
  {
    assert StateOk(s, s.procs[p]);
    QuietNoLost(s, n, p);
    StillAlone(s, n);
  }

  lemma ReleaseKeeps(s: State, n: State, p: int)
    requires Inv(s) && DoRelease(s, n, p)
    ensures Inv(n)
  {
    assert StateOk(s, s.procs[p]);
    QuietNoLost(s, n, p);
    StillAlone(s, n);
  }

  lemma DozeKeeps(s: State, n: State, p: int, c: int)
    requires Inv(s) && DoDoze(s, n, p, c)
    ensures Inv(n)
  {
    assert StateOk(s, s.procs[p]);
    QuietNoLost(s, n, p);
    StillAlone(s, n);
  }

  lemma TakePtKeeps(s: State, n: State, p: int)
    requires Inv(s) && DoTakePt(s, n, p)
    ensures Inv(n)
  {
    assert StateOk(s, s.procs[p]);
    QuietNoLost(s, n, p);
    StillAlone(s, n);
  }

  lemma DropLkKeeps(s: State, n: State, p: int)
    requires Inv(s) && DoDropLk(s, n, p)
    ensures Inv(n)
  {
    assert StateOk(s, s.procs[p]);
    QuietNoLost(s, n, p);
    StillAlone(s, n);
  }

  lemma SwitchOutKeeps(s: State, n: State, p: int)
    requires Inv(s) && DoSwitchOut(s, n, p)
    ensures Inv(n)
  {
    assert StateOk(s, s.procs[p]);
    QuietNoLost(s, n, p);
    StillAlone(s, n);
  }

  lemma DispatchKeeps(s: State, n: State, p: int)
    requires Inv(s) && DoDispatch(s, n, p)
    ensures Inv(n)
  {
    assert StateOk(s, s.procs[p]);
    QuietNoLost(s, n, p);
    StillAlone(s, n);
  }

  lemma ReturnKeeps(s: State, n: State, p: int)
    requires Inv(s) && DoReturn(s, n, p)
    ensures Inv(n)
  {
    assert StateOk(s, s.procs[p]);
    QuietNoLost(s, n, p);
    StillAlone(s, n);
  }

  lemma RetakeKeeps(s: State, n: State, p: int)
    requires Inv(s) && DoRetake(s, n, p)
    ensures Inv(n)
  {
    assert StateOk(s, s.procs[p]);
    QuietNoLost(s, n, p);
    StillAlone(s, n);
  }

  lemma WakeCallKeeps(s: State, n: State, p: int, c: int)
    requires Inv(s) && DoWakeCall(s, n, p, c)
    ensures Inv(n)
  {
    WakeCallLocks(s, n, p, c);
    QuietNoLost(s, n, p);
    StillAlone(s, n);
  }

  lemma WakeCallLocks(s: State, n: State, p: int, c: int)
    requires LocksOk(s) && StatesOk(s) && DoWakeCall(s, n, p, c)
    ensures LocksOk(n) && StatesOk(n)
  {
    assert StateOk(s, s.procs[p]);
    SamePlace(s, n, p);
  }

  /** The step moves p without changing which locks it holds. */
  lemma SamePlace(s: State, n: State, p: int)
    requires LocksOk(s) && StatesOk(s) && IsProc(s, p) && IsProc(n, p) && n == s.(procs := At(s, p, n.procs[p].pc)) && StateOk(n, n.procs[p])
    requires HoldsPt(n.procs[p].pc) <==> HoldsPt(s.procs[p].pc)
    requires forall l :: l in s.lk && l != PT ==> (HoldsLk(n, n.procs[p].pc, l) <==> HoldsLk(s, s.procs[p].pc, l))
    ensures LocksOk(n) && StatesOk(n)
  {
    forall q, l | IsProc(n, q) && l in n.lk && l != PT
      ensures n.lk[l] == q <==> HoldsLk(n, n.procs[q].pc, l)
    {
      assert HoldsLk(n, s.procs[q].pc, l) <==> HoldsLk(s, s.procs[q].pc, l);
    }
    forall q | IsProc(n, q)
      ensures StateOk(n, n.procs[q])
    {
      assert StateOk(s, s.procs[q]);
    }
  }

  lemma WakeTakeKeeps(s: State, n: State, p: int)
    requires Inv(s) && DoWakeTake(s, n, p)
    ensures Inv(n)
  {
    assert StateOk(s, s.procs[p]);
    QuietNoLost(s, n, p);
    StillAlone(s, n);
  }

  lemma LowerKeeps(s: State, n: State, p: int, c: int)
    requires Inv(s) && DoLower(s, n, p, c)
    ensures Inv(n)
  {
    QuietNoLost(s, n, p);
    assert forall q, d :: Has(n, q, d) ==> Has(s, q, d) || (q == p && d == c && c in s.isLock && Cond(s, c));
  }

  lemma SchedKeeps(s: State, n: State, from: int, to: int)
    requires Inv(s) && DoSched(s, n, from, to) && from < 0 && to < 0
    ensures Inv(n)
  {
    forall q, c | IsProc(n, q) && Needs(n, q, c) && Cond(n, c)
      ensures Pending(n, q, c)
    {
      assert Needs(s, q, c);
      StillPending(s, n, q, c);
    }
    StillAlone(s, n);
  }

  lemma RaiseKeeps(s: State, n: State, p: int, c: int)
    requires Inv(s) && DoRaise(s, n, p, c)
    ensures Inv(n)
  {
    forall q, d | IsProc(n, q) && Needs(n, q, d) && Cond(n, d)
      ensures Pending(n, q, d)
    {
      if d == c {
        assert WillWake(n, p, q, c);
      } else {
        assert Needs(s, q, d);
        StillPending(s, n, q, d);
      }
    }
    RaiseAlone(s, n, p, c);
  }

  lemma RaiseAlone(s: State, n: State, p: int, c: int)
    requires Alone(s) && DoRaise(s, n, p, c)
    ensures Alone(n)
  {
    forall q, d | Has(n, q, d)
      ensures Has(s, q, d) && d != c
    {
      assert Has(s, q, d);
      assert d == c ==> Has(s, p, c);
    }
  }

  lemma WakeOneKeeps(s: State, n: State, p: int)
    requires Inv(s) && DoWakeOne(s, n, p)
    ensures Inv(n)
  {
    forall q, d | IsProc(n, q) && Needs(n, q, d) && Cond(n, d)
      ensures Pending(n, q, d)
    {
      assert Needs(s, q, d);
      StillPending(s, n, q, d);
    }
    StillAlone(s, n);
  }

  lemma WakeEndKeeps(s: State, n: State, p: int)
    requires Inv(s) && DoWakeEnd(s, n, p)
    ensures Inv(n)
  {
    forall q, d | IsProc(n, q) && Needs(n, q, d) && Cond(n, d)
      ensures Pending(n, q, d)
    {
      assert Needs(s, q, d);
      StillPending(s, n, q, d);
    }
    StillAlone(s, n);
  }

  lemma KillKeeps(s: State, n: State, p: int, q: int)
    requires Inv(s) && DoKill(s, n, p, q)
    ensures Inv(n)
  {
    QuietNoLost(s, n, q);
    StillAlone(s, n);
  }

  lemma StepKeepsInv(s: State, n: State, step: Step)
    requires Inv(s) && Next(s, n, step)
    ensures Inv(n)
  {
    match step
    case Acquire(p, l) => AcquireKeeps(s, n, p, l);
    case Release(p) => ReleaseKeeps(s, n, p);
    case Lower(p, c) => LowerKeeps(s, n, p, c);
    case Raise(p, c) => RaiseKeeps(s, n, p, c);
    case Doze(p, c) => DozeKeeps(s, n, p, c);
    case TakePt(p) => TakePtKeeps(s, n, p);
    case DropLk(p) => DropLkKeeps(s, n, p);
    case SwitchOut(p) => SwitchOutKeeps(s, n, p);
    case SchedTake => SchedKeeps(s, n, NONE, SCHED);
    case SchedDrop => SchedKeeps(s, n, SCHED, NONE);
    case Dispatch(p) => DispatchKeeps(s, n, p);
    case Return(p) => ReturnKeeps(s, n, p);
    case Retake(p) => RetakeKeeps(s, n, p);
    case WakeCall(p, c) => WakeCallKeeps(s, n, p, c);
    case WakeTake(p) => WakeTakeKeeps(s, n, p);
    case WakeOne(p) => WakeOneKeeps(s, n, p);
    case WakeEnd(p) => WakeEndKeeps(s, n, p);
    case Kill(p, q) => KillKeeps(s, n, p, q);
  }

  // ----- whole runs ---------------------------------------------------------

  /** Everybody runs outside all locks; nothing is owed, and nobody has a sleep lock. */
  ghost predicate Init(s: State) {
    && s.pt == NONE && (forall l :: l in s.lk ==> l > PT && s.lk[l] == NONE)
    && forall p :: IsProc(s, p) ==> s.procs[p].pc == Out && s.procs[p].state == Running && s.procs[p].owes == {} && s.procs[p].has == {}
  }

  ghost predicate Run(ss: seq<State>) {
    |ss| > 0 && Init(ss[0]) && forall k :: 0 <= k < |ss| - 1 ==> Steps(ss[k], ss[k + 1])
  }

  ghost predicate Steps(s: State, n: State) {
    exists step :: Next(s, n, step)
  }

  lemma InitInv(s: State)
    requires Init(s)
    ensures Inv(s)
  {
  }

  lemma StepsKeepInv(s: State, n: State)
    requires Inv(s) && Steps(s, n)
    ensures Inv(n)
  {
    var step :| Next(s, n, step);
    StepKeepsInv(s, n, step);
  }

  lemma {:induction false} RunInv(ss: seq<State>, k: nat)
    requires Run(ss) && k < |ss|
    ensures Inv(ss[k])
  {
    if k == 0 {
      InitInv(ss[0]);
    } else {
      RunInv(ss, k - 1);
      assert Steps(ss[k - 1], ss[k - 1 + 1]);
      StepsKeepInv(ss[k - 1], ss[k]);
    }
  }

  predicate Asleep(s: State, p: int, c: int) {
    IsProc(s, p) && s.procs[p].state == Sleeping && s.procs[p].chan == c
  }

  /** No lost wakeup: in every state of every run, a process asleep on a channel whose
      condition holds is one that some process, which made the condition true, has
      yet to reach in wakeup1. */
  lemma NoLostWakeup(ss: seq<State>, k: nat, p: int, c: int)
    requires Run(ss) && k < |ss| && Asleep(ss[k], p, c) && Cond(ss[k], c)
    ensures exists q :: WillWake(ss[k], q, p, c)
  {
    RunInv(ss, k);
    assert Needs(ss[k], p, c);
  }

  // ----- prompt wakers ------------------------------------------------------

  /** A process calls sleep only when it has made all the wakeups it owes, as pipewrite
      and the log do. */
  ghost predicate Prompt(s: State, step: Step) {
    step.Doze? ==> IsProc(s, step.p) && s.procs[step.p].owes == {}
  }

  ghost predicate PromptSteps(s: State, n: State) {
    exists step :: Next(s, n, step) && Prompt(s, step)
  }

  ghost predicate PromptRun(ss: seq<State>) {
    |ss| > 0 && Init(ss[0]) && forall k :: 0 <= k < |ss| - 1 ==> PromptSteps(ss[k], ss[k + 1])
  }

  predicate InSleep(pc: Pc) {
    pc.Sleep1? || pc.Sleep2? || pc.Sleep3? || pc.Gone?
  }

  /** Nobody owes a wakeup from inside sleep. */
  ghost predicate Settled(s: State) {
    forall p :: IsProc(s, p) && InSleep(s.procs[p].pc) ==> s.procs[p].owes == {}
  }

  lemma PromptKeeps(s: State, n: State, step: Step)
    requires Settled(s) && Next(s, n, step) && Prompt(s, step)
    ensures Settled(n)
  {
  }

  lemma {:induction false} PromptInv(ss: seq<State>, k: nat)
    requires PromptRun(ss) && k < |ss|
    ensures Settled(ss[k]) && Inv(ss[k])
  {
    if k == 0 {
      InitInv(ss[0]);
    } else {
      PromptInv(ss, k - 1);
      assert PromptSteps(ss[k - 1], ss[k - 1 + 1]);
      PromptStepsKeep(ss[k - 1], ss[k]);
    }
  }

  lemma PromptStepsKeep(s: State, n: State)
    requires Settled(s) && Inv(s) && PromptSteps(s, n)
    ensures Settled(n) && Inv(n)
  {
    var step :| Next(s, n, step) && Prompt(s, step);
    PromptKeeps(s, n, step);
    StepKeepsInv(s, n, step);
  }

  /** In runs of such processes the waker that has yet to reach a sleeper is itself
      neither asleep nor on the way there: it is running. */
  lemma WakerRuns(ss: seq<State>, k: nat, p: int, c: int)
    requires PromptRun(ss) && k < |ss| && Asleep(ss[k], p, c) && Cond(ss[k], c)
    ensures exists q :: WillWake(ss[k], q, p, c) && ss[k].procs[q].state == Running && !InSleep(ss[k].procs[q].pc)
  {
    PromptInv(ss, k);
    assert Needs(ss[k], p, c);
    var q :| WillWake(ss[k], q, p, c);
    assert StateOk(ss[k], ss[k].procs[q]);
  }

  /** In every state of every run a sleep lock has at most one holder, is locked while
      it has one, and when it is free with no release still under way nobody sleeps
      on it. */
  lemma SleepLocks(ss: seq<State>, k: nat, c: int)
    requires Run(ss) && k < |ss|
    ensures forall p, q :: Has(ss[k], p, c) && Has(ss[k], q, c) ==> p == q
    ensures forall p :: Has(ss[k], p, c) ==> !Cond(ss[k], c)
    ensures Cond(ss[k], c) && (forall q :: IsProc(ss[k], q) ==> c !in ss[k].procs[q].owes) ==> forall p :: !Asleep(ss[k], p, c)
  {
    RunInv(ss, k);
    var s := ss[k];
    if Cond(s, c) && forall q :: IsProc(s, q) ==> c !in s.procs[q].owes {
      forall p
        ensures !Asleep(s, p, c)
      {
        if Asleep(s, p, c) {
          NoLostWakeup(ss, k, p, c);
        }
      }
    }
  }

  // ----- no spurious wakeup -------------------------------------------------

  /** A step wakes a sleeper exactly if it is the turn of a wakeup on the sleeper's own
      channel that comes to it, or a kill of it. */
  lemma WokenIff(s: State, n: State, step: Step, p: int)
    requires Inv(s) && Next(s, n, step) && IsProc(s, p) && s.procs[p].state == Sleeping
    ensures IsProc(n, p) && n.procs[p].state in {Sleeping, Runnable} && n.procs[p].chan == s.procs[p].chan
    ensures n.procs[p].state == Runnable <==>
              || (step.WakeOne? && IsProc(s, step.p) && s.procs[step.p].pc == Wake1(s.procs[p].chan, s.procs[step.p].pc.l, p))
              || (step.Kill? && step.q == p)
  {
    assert StateOk(s, s.procs[p]);
  }

  // ----- what sleep returns with --------------------------------------------

  /** The process is in sleep(c). */
  predicate InSleepOn(pc: Pc, c: int) {
    pc == Sleep1(c) || pc == Sleep2(c) || pc == Sleep3(c) || pc == Gone(c) || pc == Back(c) || pc == Relock(c)
  }

  /** A process goes into sleep holding the condition's lock, the condition false, ... */
  lemma SleepEntersLocked(s: State, n: State, step: Step, p: int, c: int)
    requires Inv(s) && Next(s, n, step) && IsProc(s, p)
    ensures IsProc(n, p)
    ensures InSleepOn(n.procs[p].pc, c) && !InSleepOn(s.procs[p].pc, c) ==> s.procs[p].pc == Hold(LockOf(s, c)) && !Cond(s, c)
  {
    assert StateOk(s, s.procs[p]);
  }

  /** ... and comes out of it holding that lock again, and with no channel. */
  lemma SleepReturnsLocked(s: State, n: State, step: Step, p: int, c: int)
    requires Inv(s) && Next(s, n, step) && IsProc(s, p) && InSleepOn(s.procs[p].pc, c)
    ensures IsProc(n, p) && (s.procs[p].pc == Back(c) && n.procs[p].pc != Back(c) ==> n.procs[p].chan == 0)
    ensures !InSleepOn(n.procs[p].pc, c) ==>
              && n.procs[p].pc == Hold(LockOf(s, c))
              && (if LockOf(s, c) == PT then n.pt == p else LockOf(s, c) in n.lk && n.lk[LockOf(s, c)] == p)
  {
    assert s.procs[p].pc == Back(c) ==> s.pt == p;
  }
}
