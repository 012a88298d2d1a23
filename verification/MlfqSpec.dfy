/** The MLFQ scheduler's bookkeeping as a state machine: which process is in which
    queue, over every run of fork, yield, sleep, wakeup, kill, exit, wait, clock
    ticks and scheduler passes.  One step is one hold of ptable.lock. */
module MlfqSpec {
  import opened RingSpec

  const AGE: nat := 18

  datatype ProcState = UNUSED | EMBRYO | SLEEPING | RUNNABLE | RUNNING | ZOMBIE

  datatype Proc = Proc(state: ProcState, chan: nat, pid: nat, qn: int, waittime: nat, curtime: nat)

  datatype Sched = Sched(
    procs: seq<Proc>,
    qs: Queues,
    below: int,           // the word before queue[0][0] in memory
    lost: set<int>)       // processes push() dropped: runnable, in no queue

  ghost predicate Shape(s: Sched) {
    |s.procs| == NPROC && QueuesOk(s.qs)
  }

  ghost predicate IsProc(p: int) {
    0 <= p < NPROC
  }

  ghost predicate NoDup(w: seq<int>) {
    forall j, k :: 0 <= j < k < |w| ==> w[j] != w[k]
  }

  /** A process that has not run yet belongs to the top queue. */
  ghost predicate QueueNumberOk(p: Proc) {
    0 <= p.qn < NQUEUE && (p.state == EMBRYO ==> p.qn == 0)
  }

  /** A process is runnable exactly when it is in its own queue, or lost; it is
      in no other queue and in no slot twice. */
  ghost predicate Placed(s: Sched) {
    && Shape(s)
    && (forall i :: 0 <= i < NQUEUE ==> NoDup(Window(s.qs[i])))
    && (forall i, p :: Live(s.qs, i, p) ==> IsProc(p) && s.procs[p].state == RUNNABLE && s.procs[p].qn == i && p !in s.lost)
    && (forall p :: IsProc(p) && s.procs[p].state == RUNNABLE && p !in s.lost ==> Live(s.qs, s.procs[p].qn, p))
    && (forall p :: p in s.lost ==> IsProc(p) && s.procs[p].state == RUNNABLE)
    && (forall p :: IsProc(p) ==> QueueNumberOk(s.procs[p]))
  }

  /** Placed, but for process p, which is in no queue. */
  ghost predicate PlacedBut(s: Sched, q: int) {
    && Shape(s) && IsProc(q) && q !in s.lost
    && (forall i :: 0 <= i < NQUEUE ==> NoDup(Window(s.qs[i])))
    && (forall i, p :: Live(s.qs, i, p) ==> p != q && IsProc(p) && s.procs[p].state == RUNNABLE && s.procs[p].qn == i && p !in s.lost)
    && (forall p :: IsProc(p) && p != q && s.procs[p].state == RUNNABLE && p !in s.lost ==> Live(s.qs, s.procs[p].qn, p))
    && (forall p :: p in s.lost ==> IsProc(p) && s.procs[p].state == RUNNABLE)
    && (forall p :: IsProc(p) ==> QueueNumberOk(s.procs[p]))
  }

  // ----- room ---------------------------------------------------------------

  lemma {:induction false} ElementsCount(w: seq<int>)
    requires NoDup(w)
    ensures |set p | p in w| == |w|
  {
    if w != [] {
      var n := |w| - 1;
      ElementsCount(w[..n]);
      assert w == w[..n] + [w[n]];
      assert (set p | p in w) == (set p | p in w[..n]) + {w[n]};
    }
  }

  ghost function UpTo(n: nat): (r: set<int>)
    ensures |r| == n
    ensures forall p :: p in r <==> 0 <= p < n
  {
    if n == 0 then {} else UpTo(n - 1) + {n - 1}
  }

  lemma SubsetCount(a: set<int>, b: set<int>)
    requires a <= b
    ensures |a| <= |b|
  {
    assert b == a + (b - a);
  }

  lemma Missing(w: seq<int>, q: int, n: nat)
    requires NoDup(w) && 0 <= q < n && q !in w && forall p :: p in w ==> 0 <= p < n
    ensures |w| < n
  {
    ElementsCount(w);
    SubsetCount((set p | p in w), UpTo(n) - {q});
  }

  /** A queue that misses a process has room for it. */
  lemma RoomFor(w: seq<int>, q: int)
    requires NoDup(w) && IsProc(q) && q !in w && forall p :: p in w ==> IsProc(p)
    ensures |w| < NPROC
  {
    forall p | p in w
      ensures 0 <= p < NPROC
    {
      assert IsProc(p);
    }
    Missing(w, q, NPROC);
  }

  // ----- push ---------------------------------------------------------------

  /** push(a, p) where p is about to be, or is, runnable in queue a. */
  ghost function PushTo(s: Sched, a: int, p: int): Sched
    requires Shape(s) && IsProc(p) && 0 <= a < NQUEUE
  {
    var qs := Pushed(s.qs, a, p, s.below);
    s.(qs := qs,
       procs := if qs == s.qs then s.procs else s.procs[p := s.procs[p].(curtime := 0, waittime := 0)],
       lost := if qs == s.qs then s.lost + {p} else s.lost)
  }

  /** A runnable process that is in no queue joins its queue's tail, or is lost;
      the latter exactly when the scan meets a phantom. */
  lemma PushPlaces(s: Sched, p: int)
    requires PlacedBut(s, p) && s.procs[p].state == RUNNABLE
    ensures Placed(PushTo(s, s.procs[p].qn, p))
    ensures var a := s.procs[p].qn;
            var n := PushTo(s, a, p);
            && (Phantom(s.qs, a, p, s.below) ==> n == s.(lost := s.lost + {p}))
            && (!Phantom(s.qs, a, p, s.below) ==>
                  && n.lost == s.lost
                  && n.qs == s.qs[a := Append(s.qs[a], p)]
                  && Window(n.qs[a]) == Window(s.qs[a]) + [p]
                  && n.procs == s.procs[p := s.procs[p].(curtime := 0, waittime := 0)])
  {
    var a := s.procs[p].qn;
    assert forall i :: 0 <= i < NQUEUE ==> !Live(s.qs, i, p);
    assert forall x :: x in Window(s.qs[a]) ==> Live(s.qs, a, x);
    RoomFor(Window(s.qs[a]), p);
    PushedWindow(s.qs, a, p, s.below);
    var n := PushTo(s, a, p);
    if !Phantom(s.qs, a, p, s.below) {
      assert n.qs != s.qs by {
        assert Window(n.qs[a]) != Window(s.qs[a]);
      }
      Appended(s, n, a, p);
    }
  }

  lemma Appended(s: Sched, n: Sched, a: int, p: int)
    requires PlacedBut(s, p) && s.procs[p].state == RUNNABLE && s.procs[p].qn == a
    requires QueuesOk(n.qs) && forall i :: 0 <= i < NQUEUE && i != a ==> n.qs[i] == s.qs[i]
    requires Window(n.qs[a]) == Window(s.qs[a]) + [p]
    requires n.lost == s.lost && n.procs == s.procs[p := s.procs[p].(curtime := 0, waittime := 0)]
    ensures Placed(n)
  {
    forall i, x | Live(n.qs, i, x)
      ensures IsProc(x) && n.procs[x].state == RUNNABLE && n.procs[x].qn == i && x !in n.lost
    {
      if i == a && x == p {
      } else {
        assert Live(s.qs, i, x);
      }
    }
    forall x | IsProc(x) && n.procs[x].state == RUNNABLE && x !in n.lost
      ensures Live(n.qs, n.procs[x].qn, x)
    {
      if x == p {
        assert Window(n.qs[a])[|Window(s.qs[a])|] == p;
      } else {
        assert Live(s.qs, s.procs[x].qn, x);
      }
    }
    forall j, k | 0 <= j < k < |Window(n.qs[a])|
      ensures Window(n.qs[a])[j] != Window(n.qs[a])[k]
    {
      assert Window(s.qs[a])[j] == Window(n.qs[a])[j];
      assert Live(s.qs, a, Window(s.qs[a])[j]);
    }
  }

  // ----- aging --------------------------------------------------------------

  /** One promotion: remove p from queue i, lower its queue number, push it. */
  ghost function Promote(s: Sched, i: int, p: int): Sched
    requires Shape(s) && IsProc(p) && 1 <= i < NQUEUE
  {
    PushTo(Unqueued(s, i, p), i - 1, p)
  }

  ghost function Unqueued(s: Sched, i: int, p: int): (n: Sched)
    requires Shape(s) && IsProc(p) && 1 <= i < NQUEUE
    ensures Shape(n)
  {
    s.(qs := s.qs[i := Removed(s.qs[i], p)], procs := s.procs[p := s.procs[p].(qn := i - 1)])
  }

  lemma WithoutNoDup(w: seq<int>, p: int)
    requires NoDup(w) && p in w
    ensures NoDup(Without(w, p)) && |Without(w, p)| == |w| - 1
    ensures forall x :: x in Without(w, p) <==> x in w && x != p
  {
    var k := IndexOf(w, p);
    assert k < |w|;
    var v := Without(w, p);
    assert v == w[..k] + w[k + 1..];
    forall x | x in w && x != p
      ensures x in v
    {
      var j :| 0 <= j < |w| && w[j] == x;
      assert v[if j < k then j else j - 1] == x;
    }
  }

  lemma UnqueuedPlaced(s: Sched, i: int, p: int)
    requires Placed(s) && 1 <= i < NQUEUE && Live(s.qs, i, p)
    ensures PlacedBut(Unqueued(s, i, p), p)
    ensures Window(Unqueued(s, i, p).qs[i]) == Without(Window(s.qs[i]), p)
  {
    var n := Unqueued(s, i, p);
    RemovedWindow(s.qs[i], p);
    WithoutNoDup(Window(s.qs[i]), p);
    assert Window(n.qs[i]) == Without(Window(s.qs[i]), p);
    forall j, x | Live(n.qs, j, x)
      ensures Live(s.qs, j, x) && x != p
    {
      assert Live(s.qs, j, x);
    }
    forall x | IsProc(x) && x != p && n.procs[x].state == RUNNABLE && x !in n.lost
      ensures Live(n.qs, n.procs[x].qn, x)
    {
      assert Live(s.qs, s.procs[x].qn, x);
    }
  }

  /** The processes among ps are looked at in order; those that have waited longer
      than AGE are promoted. */
  ghost function AgeList(s: Sched, i: int, ps: seq<int>): Sched
    requires Shape(s) && 1 <= i < NQUEUE && forall p :: p in ps ==> IsProc(p)
    decreases |ps|
  {
    if ps == [] then s
    else AgeList(AgeOne(s, i, ps[0]), i, ps[1..])
  }

  ghost function AgeOne(s: Sched, i: int, p: int): (n: Sched)
    requires Shape(s) && 1 <= i < NQUEUE && IsProc(p)
    ensures Shape(n)
  {
    if s.procs[p].waittime > AGE then Promote(s, i, p) else s
  }

  /** The aging loop of the scheduler: queues 1 to 4, each over the entries it has
      when its turn comes. */
  ghost function AgeFrom(s: Sched, i: int): (e: Sched)
    requires Placed(s) && 1 <= i <= NQUEUE
    ensures Placed(e)
    decreases NQUEUE - i
  {
    if i == NQUEUE then s
    else
      assert forall p :: p in Window(s.qs[i]) ==> Live(s.qs, i, p);
      AgeListPlaced(s, i, Window(s.qs[i]));
      AgeFrom(AgeList(s, i, Window(s.qs[i])), i + 1)
  }

  /** The entries that stay, and the ones that are promoted. */
  function Kept(ps: seq<int>, procs: seq<Proc>): seq<int>
    requires |procs| == NPROC && forall k :: 0 <= k < |ps| ==> 0 <= ps[k] < NPROC
  {
    if ps == [] then []
    else (if procs[ps[0]].waittime > AGE then [] else [ps[0]]) + Kept(ps[1..], procs)
  }

  function Aged(ps: seq<int>, procs: seq<Proc>): seq<int>
    requires |procs| == NPROC && forall k :: 0 <= k < |ps| ==> 0 <= ps[k] < NPROC
  {
    if ps == [] then []
    else (if procs[ps[0]].waittime > AGE then [ps[0]] else []) + Aged(ps[1..], procs)
  }

  lemma {:induction false} AgeListPlaced(s: Sched, i: int, ps: seq<int>)
    requires Placed(s) && 1 <= i < NQUEUE && NoDup(ps)
    requires forall p :: p in ps ==> Live(s.qs, i, p)
    ensures forall p :: p in ps ==> IsProc(p)
    ensures Placed(AgeList(s, i, ps))
    decreases |ps|
  {
    assert forall p :: p in ps ==> IsProc(p);
    if ps != [] {
      var p, rest := ps[0], ps[1..];
      assert Live(s.qs, i, p);
      AgeOnePlaced(s, i, p);
      var n := AgeOne(s, i, p);
      forall x | x in rest
        ensures Live(n.qs, i, x)
      {
        assert x in ps;
        var k :| 0 <= k < |rest| && rest[k] == x;
        assert ps[k + 1] == x != p;
      }
      AgeListPlaced(n, i, rest);
    }
  }

  /** What a promotion of p from queue i to the next comes to. */
  ghost predicate Promoted(s: Sched, n: Sched, i: int, p: int)
    requires Shape(s) && IsProc(p) && 1 <= i < NQUEUE
  {
    && Shape(n) && n.below == s.below
    && Window(n.qs[i]) == Without(Window(s.qs[i]), p)
    && Window(n.qs[i - 1]) == Window(s.qs[i - 1]) + (if p in n.lost then [] else [p])
    && (forall j :: 0 <= j < NQUEUE && j != i && j != i - 1 ==> n.qs[j] == s.qs[j])
    && (forall x :: IsProc(x) && x != p ==> n.procs[x] == s.procs[x])
    && n.procs[p].qn == i - 1 && (p !in n.lost ==> n.procs[p].waittime == 0)
    && (p in n.lost <==> Phantom(Unqueued(s, i, p).qs, i - 1, p, s.below))
    && n.lost == s.lost + if p in n.lost then {p} else {}
  }

  lemma PromotePlaced(s: Sched, i: int, p: int)
    requires Placed(s) && 1 <= i < NQUEUE && Live(s.qs, i, p)
    ensures Placed(Promote(s, i, p)) && Promoted(s, Promote(s, i, p), i, p)
  {
    var m := Unqueued(s, i, p);
    UnqueuedPlaced(s, i, p);
    PushPlaces(m, p);
    PromotedOf(s, m, PushTo(m, i - 1, p), i, p);
  }

  lemma PromotedOf(s: Sched, m: Sched, n: Sched, i: int, p: int)
    requires Shape(s) && Shape(n) && IsProc(p) && 1 <= i < NQUEUE && p !in s.lost && m == Unqueued(s, i, p) && n.below == m.below
    requires Window(m.qs[i]) == Without(Window(s.qs[i]), p)
    requires Phantom(m.qs, i - 1, p, m.below) ==> n == m.(lost := m.lost + {p})
    requires !Phantom(m.qs, i - 1, p, m.below) ==>
               && n.lost == m.lost && n.qs == m.qs[i - 1 := n.qs[i - 1]] && Window(n.qs[i - 1]) == Window(m.qs[i - 1]) + [p]
               && n.procs == m.procs[p := m.procs[p].(curtime := 0, waittime := 0)]
    ensures Promoted(s, n, i, p)
  {
  }

  lemma AgeOnePlaced(s: Sched, i: int, p: int)
    requires Placed(s) && 1 <= i < NQUEUE && Live(s.qs, i, p)
    ensures Placed(AgeOne(s, i, p))
    ensures forall x :: Live(s.qs, i, x) && x != p ==> Live(AgeOne(s, i, p).qs, i, x)
    ensures forall x :: IsProc(x) && x != p ==> AgeOne(s, i, p).procs[x] == s.procs[x]
  {
    if s.procs[p].waittime > AGE {
      PromotePlaced(s, i, p);
      WithoutNoDup(Window(s.qs[i]), p);
    }
  }

  /** The entries of ps outside the set. */
  ghost function Except(ps: seq<int>, out: set<int>): seq<int> {
    if ps == [] then []
    else (if ps[0] in out then [] else [ps[0]]) + Except(ps[1..], out)
  }

  /** What one look at process p does to the queues. */
  lemma AgeOneWindows(s: Sched, i: int, p: int, before: seq<int>, rest: seq<int>)
    requires Placed(s) && 1 <= i < NQUEUE && Window(s.qs[i]) == before + [p] + rest
    ensures Live(s.qs, i, p) && IsProc(p)
    ensures var n := AgeOne(s, i, p);
            var up := s.procs[p].waittime > AGE;
            && Window(n.qs[i]) == (if up then before else before + [p]) + rest
            && Window(n.qs[i - 1]) == Window(s.qs[i - 1]) + (if up && p !in n.lost then [p] else [])
            && (forall j :: 0 <= j < NQUEUE && j != i && j != i - 1 ==> n.qs[j] == s.qs[j])
            && s.lost <= n.lost <= s.lost + {p}
            && (up ==> n.procs[p].qn == i - 1 && (p !in n.lost ==> n.procs[p].waittime == 0))
            && (p in n.lost ==> up && Phantom(Unqueued(s, i, p).qs, i - 1, p, s.below))
  {
    var w := Window(s.qs[i]);
    assert w[|before|] == p;
    assert Live(s.qs, i, p);
    if s.procs[p].waittime > AGE {
      PromotePlaced(s, i, p);
      CutOut(w, p, before, rest);
    }
  }

  lemma CutOut(w: seq<int>, p: int, before: seq<int>, rest: seq<int>)
    requires NoDup(w) && w == before + [p] + rest
    ensures Without(w, p) == before + rest
  {
    assert w[|before|] == p;
    var k := IndexOf(w, p);
    assert k == |before|;
    assert w[..k] == before && w[k + 1..] == rest;
  }

  ghost predicate AllProcs(ps: seq<int>) {
    forall k :: 0 <= k < |ps| ==> 0 <= ps[k] < NPROC
  }

  /** The result e of looking at the entries ps of queue i, which follow the
      entries `before`: those that have waited at most AGE stay, in order; the
      others are at the next queue's tail, in order, but for those that push()
      dropped; nothing else changes. */
  ghost predicate AgedTo(s: Sched, e: Sched, i: int, before: seq<int>, ps: seq<int>) {
    && Shape(s) && Shape(e) && 1 <= i < NQUEUE && AllProcs(ps)
    && Window(e.qs[i]) == before + Kept(ps, s.procs)
    && Window(e.qs[i - 1]) == Window(s.qs[i - 1]) + Except(Aged(ps, s.procs), e.lost)
    && (forall j :: 0 <= j < NQUEUE && j != i && j != i - 1 ==> e.qs[j] == s.qs[j])
    && s.lost <= e.lost && (forall p :: p in e.lost && p !in s.lost ==> p in ps)
    && (forall p :: IsProc(p) && (p !in ps || s.procs[p].waittime <= AGE) ==> e.procs[p] == s.procs[p])
    && (forall p :: IsProc(p) && p in ps && s.procs[p].waittime > AGE && p !in e.lost ==> e.procs[p].waittime == 0)
  }

  lemma {:induction false} AgeListWindows(s: Sched, i: int, before: seq<int>, ps: seq<int>)
    requires Placed(s) && 1 <= i < NQUEUE && Window(s.qs[i]) == before + ps
    ensures forall p :: p in ps ==> Live(s.qs, i, p) && IsProc(p)
    ensures AgedTo(s, AgeList(s, i, ps), i, before, ps)
    decreases |ps|
  {
    var w := Window(s.qs[i]);
    forall k | 0 <= k < |ps|
      ensures Live(s.qs, i, ps[k]) && IsProc(ps[k])
    {
      assert w[|before| + k] == ps[k];
      assert Live(s.qs, i, ps[k]);
    }
    if ps != [] {
      var p, rest := ps[0], ps[1..];
      assert before + ps == before + [p] + rest;
      AgeOneWindows(s, i, p, before, rest);
      AgeOnePlaced(s, i, p);
      var n := AgeOne(s, i, p);
      var before1 := if s.procs[p].waittime > AGE then before else before + [p];
      AgeListWindows(n, i, before1, rest);
      RestUnchanged(s, n, p, rest, w, |before|);
      AgedToStep(s, n, AgeList(s, i, ps), i, before, p, rest);
      assert ps == [p] + rest;
    }
  }

  lemma AgedToStep(s: Sched, n: Sched, e: Sched, i: int, before: seq<int>, p: int, rest: seq<int>)
    requires Shape(s) && 1 <= i < NQUEUE && IsProc(p) && p !in rest && p !in s.lost
    requires AgedTo(n, e, i, if s.procs[p].waittime > AGE then before else before + [p], rest)
    requires Kept(rest, n.procs) == Kept(rest, s.procs) && Aged(rest, n.procs) == Aged(rest, s.procs)
    requires Window(n.qs[i - 1]) == Window(s.qs[i - 1]) + (if s.procs[p].waittime > AGE && p !in n.lost then [p] else [])
    requires forall j :: 0 <= j < NQUEUE && j != i && j != i - 1 ==> n.qs[j] == s.qs[j]
    requires s.lost <= n.lost <= s.lost + {p}
    requires forall x :: IsProc(x) && x != p ==> n.procs[x] == s.procs[x]
    requires s.procs[p].waittime <= AGE ==> n == s
    requires s.procs[p].waittime > AGE && p !in n.lost ==> n.procs[p].waittime == 0
    ensures AgedTo(s, e, i, before, [p] + rest)
  {
    var ps := [p] + rest;
    assert e.procs[p] == n.procs[p];
    assert p in e.lost <==> p in n.lost;
    AgedJoin(s.procs, p, rest, before, Window(s.qs[i - 1]), e.lost);
  }

  /** The lists for [p] + rest from the lists for rest. */
  lemma AgedJoin(procs: seq<Proc>, p: int, rest: seq<int>, before: seq<int>, next: seq<int>, lost: set<int>)
    requires |procs| == NPROC && 0 <= p < NPROC && AllProcs(rest)
    ensures AllProcs([p] + rest)
    ensures var up := procs[p].waittime > AGE;
            && before + Kept([p] + rest, procs) == (if up then before else before + [p]) + Kept(rest, procs)
            && next + Except(Aged([p] + rest, procs), lost) ==
               (next + (if up && p !in lost then [p] else [])) + Except(Aged(rest, procs), lost)
  {
    var ps := [p] + rest;
    assert ps[0] == p && ps[1..] == rest;
    if procs[p].waittime > AGE {
      var a := Aged(ps, procs);
      assert a == [p] + Aged(rest, procs);
      assert a[0] == p && a[1..] == Aged(rest, procs);
      assert Kept(ps, procs) == Kept(rest, procs);
    } else {
      assert Kept(ps, procs) == [p] + Kept(rest, procs);
      assert Aged(ps, procs) == Aged(rest, procs);
    }
  }

  /** Looking at p tells nothing about the entries after it. */
  lemma RestUnchanged(s: Sched, n: Sched, p: int, rest: seq<int>, w: seq<int>, k: nat)
    requires NoDup(w) && k < |w| && w[k] == p && w[k + 1..] == rest
    requires |s.procs| == |n.procs| == NPROC
    requires forall x :: IsProc(x) && x != p ==> n.procs[x] == s.procs[x]
    requires AllProcs(rest)
    ensures p !in rest
    ensures Kept(rest, n.procs) == Kept(rest, s.procs) && Aged(rest, n.procs) == Aged(rest, s.procs)
  {
    forall j | 0 <= j < |rest|
      ensures rest[j] != p && n.procs[rest[j]] == s.procs[rest[j]]
    {
      assert w[k + 1 + j] == rest[j];
      assert IsProc(rest[j]);
    }
    SameTimes(rest, n.procs, s.procs);
  }

  lemma {:induction false} SameTimes(ps: seq<int>, u: seq<Proc>, v: seq<Proc>)
    requires |u| == |v| == NPROC && forall k :: 0 <= k < |ps| ==> 0 <= ps[k] < NPROC && u[ps[k]] == v[ps[k]]
    ensures Kept(ps, u) == Kept(ps, v) && Aged(ps, u) == Aged(ps, v)
  {
    if ps != [] {
      SameTimes(ps[1..], u, v);
    }
  }
}
