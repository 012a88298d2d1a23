/** The MLFQ branch of scheduler(), up to the context switch: the aging loops as
    proc.c writes them, over the arrays that remove and push change under them. */
module MlfqPass {
  import opened RingSpec
  import opened MlfqSpec
  import opened MlfqRuns
  import RunQueue

  /** The kth live slot counted from back. */
  function BackSlot(back: int, m: int): int {
    if back - m >= 0 then back - m else back - m + NPROC
  }

  lemma SlotFromBack(r: Ring, k: int)
    requires r.Ok() && 0 <= k < r.Len()
    ensures r.Slot(k) == BackSlot(r.back, r.Len() - 1 - k)
  {
  }

  lemma {:induction false} AgeListSnoc(s: Sched, i: int, u: seq<int>, p: int)
    requires Shape(s) && 1 <= i < NQUEUE && IsProc(p) && forall x :: x in u ==> IsProc(x)
    ensures forall x :: x in u + [p] ==> IsProc(x)
    ensures Shape(AgeList(s, i, u))
    ensures AgeList(s, i, u + [p]) == AgeOne(AgeList(s, i, u), i, p)
    decreases |u|
  {
    if u == [] {
      assert u + [p] == [p];
      assert AgeList(AgeOne(s, i, p), i, [p][1..]) == AgeOne(s, i, p);
    } else {
      assert (u + [p])[0] == u[0] && (u + [p])[1..] == u[1..] + [p];
      AgeListSnoc(AgeOne(s, i, u[0]), i, u[1..], p);
    }
  }

  /** remove() and push() leave a queue's back alone while it has entries. */
  lemma AgeOneBack(s: Sched, i: int, p: int)
    requires Placed(s) && 1 <= i < NQUEUE && Live(s.qs, i, p)
    ensures AgeOne(s, i, p).qs[i].face != -1 ==> AgeOne(s, i, p).qs[i].back == s.qs[i].back
  {
  }

  ghost predicate EndsWith(u: seq<int>, v: seq<int>) {
    |v| <= |u| && u[|u| - |v|..] == v
  }

  /** The first d of the entries w that queue i had in s0 have been looked at; the
      others are still the last ones of the queue, in place. */
  ghost predicate Progress(s: Sched, s0: Sched, i: nat, w: seq<int>, d: nat) {
    && Shape(s0) && Placed(s) && 1 <= i < NQUEUE && d <= |w| && w == Window(s0.qs[i])
    && (forall p :: p in w[..d] ==> IsProc(p))
    && s == AgeList(s0, i, w[..d])
    && EndsWith(Window(s.qs[i]), w[d..])
    && (s.qs[i].face != -1 ==> s.qs[i].back == s0.qs[i].back)
  }

  lemma ProgressStart(s0: Sched, i: nat)
    requires Placed(s0) && 1 <= i < NQUEUE
    ensures Progress(s0, s0, i, Window(s0.qs[i]), 0)
  {
    var w := Window(s0.qs[i]);
    assert w[0..] == w;
  }

  /** The entry to look at next is where the loop looks, and looking at it makes
      one step of progress. */
  lemma ProgressStep(s: Sched, s0: Sched, i: nat, w: seq<int>, d: nat)
    requires Progress(s, s0, i, w, d) && d < |w|
    ensures 0 <= s0.qs[i].Slot(d) < NPROC && s.qs[i].row[s0.qs[i].Slot(d)] == w[d]
    ensures Live(s.qs, i, w[d]) && IsProc(w[d])
    ensures Progress(AgeOne(s, i, w[d]), s0, i, w, d + 1)
  {
    var p := w[d];
    ProgressSlot(s, s0, i, w, d);
    ProgressOne(s, i, w, d);
    assert w[..d + 1] == w[..d] + [p];
    AgeListSnoc(s0, i, w[..d], p);
  }

  lemma ProgressOne(s: Sched, i: nat, w: seq<int>, d: nat)
    requires Placed(s) && 1 <= i < NQUEUE && d < |w| && EndsWith(Window(s.qs[i]), w[d..])
    ensures Live(s.qs, i, w[d]) && IsProc(w[d])
    ensures var n := AgeOne(s, i, w[d]);
            && Placed(n)
            && EndsWith(Window(n.qs[i]), w[d + 1..])
            && (n.qs[i].face != -1 ==> n.qs[i].back == s.qs[i].back)
  {
    var u := Window(s.qs[i]);
    var before := u[..|u| - (|w| - d)];
    var rest := w[d + 1..];
    assert u == before + [w[d]] + rest;
    AgeOneWindows(s, i, w[d], before, rest);
    AgeOnePlaced(s, i, w[d]);
    AgeOneBack(s, i, w[d]);
  }

  lemma ProgressSlot(s: Sched, s0: Sched, i: nat, w: seq<int>, d: nat)
    requires Shape(s) && Shape(s0) && 1 <= i < NQUEUE && w == Window(s0.qs[i]) && d < |w|
    requires EndsWith(Window(s.qs[i]), w[d..]) && (s.qs[i].face != -1 ==> s.qs[i].back == s0.qs[i].back)
    ensures 0 <= s0.qs[i].Slot(d) < NPROC && s.qs[i].row[s0.qs[i].Slot(d)] == w[d]
  {
    var u := Window(s.qs[i]);
    var k := |u| - (|w| - d);
    SlotFromBack(s.qs[i], k);
    SlotFromBack(s0.qs[i], d);
    assert u[k] == u[k..][0] == w[d];
  }

  /** The loops' test `j <= back` sees whether an entry is left. */
  lemma ProgressBack(s: Sched, s0: Sched, i: nat, w: seq<int>, d: nat)
    requires Progress(s, s0, i, w, d)
    ensures d < |w| ==> s.qs[i].back == s0.qs[i].back
    ensures s.qs[i].back == s0.qs[i].back || s.qs[i].back == -1
  {
    assert d < |w| ==> |w[d..]| > 0;
  }

  lemma ProgressEnd(s: Sched, s0: Sched, i: nat, w: seq<int>)
    requires Progress(s, s0, i, w, |w|)
    ensures (forall p :: p in w ==> IsProc(p)) && s == AgeList(s0, i, w)
  {
    assert w[..|w|] == w;
  }

  /** While the test holds, slot j has the next entry; when it fails, none is left. */
  lemma BackTest(s: Sched, s0: Sched, i: nat, w: seq<int>, d: nat, j: int)
    requires Progress(s, s0, i, w, d) && d <= |w| && j == s0.qs[i].back - (|w| - 1 - d) && j >= 0
    ensures j <= s.qs[i].back ==> d < |w| && j == s0.qs[i].Slot(d)
    ensures j > s.qs[i].back ==> d == |w|
  {
    ProgressBack(s, s0, i, w, d);
    if d < |w| { SlotFromBack(s0.qs[i], d); }
  }

  class Scheduler {
    const rq: RunQueue.RunQueue
    var procs: seq<Proc>
    var below: int
    ghost var lost: set<int>

    ghost predicate Valid()
      reads this, rq, rq.face, rq.back, rq.cells
    {
      rq.Valid() && |procs| == NPROC
    }

    ghost function State(): (s: Sched)
      requires Valid()
      reads this, rq, rq.face, rq.back, rq.cells
      ensures Shape(s)
    {
      Sched(procs, rq.Contents(), below, lost)
    }

    constructor (q: RunQueue.RunQueue, ps: seq<Proc>, w: int)
      requires q.Valid() && |ps| == NPROC
      ensures Valid() && rq == q && State() == Sched(ps, q.Contents(), w, {})
    {
      rq, procs, below, lost := q, ps, w, {};
    }

    /** push(a, p), with the process fields it resets. */
    method Push(a: nat, p: int)
      requires Valid() && a < NQUEUE && IsProc(p)
      modifies this`procs, this`lost, rq.face, rq.back, rq.cells
      ensures Valid() && State() == PushTo(old(State()), a, p)
    {
      assert Append(rq.Contents()[a], p).back != rq.Contents()[a].back;
      var pushed := rq.Push(a, p, below);
      if pushed {
        procs := procs[p := procs[p].(curtime := 0, waittime := 0)];
      } else {
        lost := lost + {p};
      }
    }

    /** The body of the aging loops: look at slot j of queue i. */
    method Examine(i: nat, j: nat)
      requires Valid() && Placed(State()) && 1 <= i < NQUEUE && j < NPROC
      requires Live(State().qs, i, State().qs[i].row[j])
      modifies this`procs, this`lost, rq.face, rq.back, rq.cells
      ensures Valid() && below == old(below)
      ensures State() == AgeOne(old(State()), i, old(State()).qs[i].row[j])
    {
      var p := rq.At(i, j);
      assert p == State().qs[i].row[j];
      if procs[p].waittime > AGE {
        rq.Remove(i, p);
        procs := procs[p := procs[p].(qn := procs[p].qn - 1)];
        assert State() == Unqueued(old(State()), i, p);
        Push(i - 1, p);
      }
    }

    /** The loops over one queue, for both layouts of the ring: whatever remove()
        shifts meanwhile, each entry the queue had is looked at once, in order. */
    method AgeQueue(i: nat)
      requires Valid() && Placed(State()) && 1 <= i < NQUEUE
      modifies this`procs, this`lost, rq.face, rq.back, rq.cells
      ensures Valid() && below == old(below)
      ensures forall p :: p in Window(old(State()).qs[i]) ==> IsProc(p)
      ensures State() == AgeList(old(State()), i, Window(old(State()).qs[i]))
    {
      ghost var s0 := State();
      ghost var w := Window(s0.qs[i]);
      ProgressStart(s0, i);
      WindowProcs(s0, i);
      ExamineAll(i, s0, w);
      ProgressEnd(State(), s0, i, w);
    }

    method ExamineAll(i: nat, ghost s0: Sched, ghost w: seq<int>)
      requires Valid() && s0 == State() && Progress(s0, s0, i, w, 0)
      modifies this`procs, this`lost, rq.face, rq.back, rq.cells
      ensures Valid() && below == old(below) && Progress(State(), s0, i, w, |w|)
    {
      if rq.face[i] == -1 {
        return;
      }
      if rq.face[i] <= rq.back[i] {
        ExamineToBack(i, rq.face[i], s0, w, 0);
      } else {
        ghost var d := ExamineToEnd(i, rq.face[i], s0, w);
        ExamineToBack(i, 0, s0, w, d);
      }
    }

    /** The loops of the form for(j = first; j <= back[i]; j++). */
    method ExamineToBack(i: nat, first: int, ghost s0: Sched, ghost w: seq<int>, ghost d0: nat)
      requires Valid() && below == s0.below && Progress(State(), s0, i, w, d0) && d0 < |w|
      requires first == s0.qs[i].Slot(d0) && first <= s0.qs[i].back
      modifies this`procs, this`lost, rq.face, rq.back, rq.cells
      ensures Valid() && below == old(below) && Progress(State(), s0, i, w, |w|)
    {
      ghost var d := d0;
      var j := first;
      SlotFromBack(s0.qs[i], d0);
      while j <= rq.back[i]
        invariant Valid() && below == s0.below && d0 <= d <= |w| && Progress(State(), s0, i, w, d)
        invariant j == s0.qs[i].back - (|w| - 1 - d) && j >= 0
        decreases |w| - d
      {
        BackTest(State(), s0, i, w, d, j);
        d := ExamineNext(i, j, s0, w, d);
        j := j + 1;
      }
      BackTest(State(), s0, i, w, d, j);
    }

    /** The loop of the form for(j = face[i]; j < NPROC; j++), on a wrapped ring. */
    method ExamineToEnd(i: nat, first: int, ghost s0: Sched, ghost w: seq<int>) returns (ghost d: nat)
      requires Valid() && below == s0.below && Progress(State(), s0, i, w, 0)
      requires first == s0.qs[i].face > s0.qs[i].back >= 0
      modifies this`procs, this`lost, rq.face, rq.back, rq.cells
      ensures Valid() && below == old(below) && Progress(State(), s0, i, w, d)
      ensures d < |w| && s0.qs[i].Slot(d) == 0
    {
      d := 0;
      var j := first;
      while j < NPROC
        invariant Valid() && below == s0.below && Progress(State(), s0, i, w, d)
        invariant j == s0.qs[i].face + d <= NPROC
      {
        d := ExamineNext(i, j, s0, w, d);
        j := j + 1;
      }
    }

    method ExamineNext(i: nat, j: int, ghost s0: Sched, ghost w: seq<int>, ghost d: nat) returns (ghost d1: nat)
      requires Valid() && Progress(State(), s0, i, w, d) && d < |w| && j == s0.qs[i].Slot(d)
      modifies this`procs, this`lost, rq.face, rq.back, rq.cells
      ensures Valid() && below == old(below) && d1 == d + 1 && Progress(State(), s0, i, w, d1)
    {
      ProgressStep(State(), s0, i, w, d);
      Examine(i, j);
      d1 := d + 1;
    }

    /** The aging pass: queues 1 to 4 in turn. */
    method AgingPass()
      requires Valid() && Placed(State())
      modifies this`procs, this`lost, rq.face, rq.back, rq.cells
      ensures Valid() && State() == AgeFrom(old(State()), 1)
    {
      var i := 1;
      while i < NQUEUE
        invariant 1 <= i <= NQUEUE && Valid() && Placed(State())
        invariant AgeFrom(State(), i) == AgeFrom(old(State()), 1)
      {
        WindowProcs(State(), i);
        AgeListPlaced(State(), i, Window(State().qs[i]));
        AgeQueue(i);
        i := i + 1;
      }
    }

    /** One turn of the scheduler loop up to swtch: -1 when nothing can run. */
    method Dispatch() returns (p: int)
      requires Valid() && Placed(State())
      modifies this`procs, this`lost, rq.face, rq.back, rq.cells
      ensures Valid() && State() == Next(old(State()), MlfqRuns.Dispatch)
      ensures p == -1 <==> forall i :: 0 <= i < NQUEUE ==> AgeFrom(old(State()), 1).qs[i].face == -1
      ensures p != -1 ==> IsProc(p) && procs[p].state == RUNNING
    {
      AgingPass();
      p := PopFirst();
    }

    /** From the end of the aging loops to swtch. */
    method PopFirst() returns (p: int)
      requires Valid() && Placed(State())
      modifies this`procs, rq.face, rq.back
      ensures Valid() && State() == PopAndRun(old(State()))
      ensures p == -1 <==> forall i :: 0 <= i < NQUEUE ==> old(State()).qs[i].face == -1
      ensures p != -1 ==> IsProc(p) && procs[p].state == RUNNING
    {
      PopPlaced(State());
      var i := FirstNonEmpty();
      p := -1;
      if i < NQUEUE {
        TakeFirstWindow(State().qs[i]);
        p := rq.Pop(i);
        if procs[p].state == RUNNABLE {
          procs := procs[p := procs[p].(state := RUNNING, waittime := 0, curtime := 0)];
        }
      }
    }

    method FirstNonEmpty() returns (i: nat)
      requires Valid()
      ensures i == FirstQueue(State().qs, 0)
    {
      i := 0;
      while i < NQUEUE && rq.face[i] == -1
        invariant 0 <= i <= NQUEUE
        invariant FirstQueue(State().qs, i) == FirstQueue(State().qs, 0)
      {
        i := i + 1;
      }
    }
  }
}
