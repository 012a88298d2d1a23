/** The priority scheduler's choice and its round robin. */
module Pbs {

  datatype Proc = Proc(runnable: bool, priority: int)

  /** Steps from cursor c forward, round the table, to entry x.  The cursor of a pass
      that has just run the last entry is n. */
  function Dist(n: nat, c: nat, x: int): int {
    if x >= c then x - c else x - c + n
  }

  predicate Ready(procs: seq<Proc>, i: int) {
    0 <= i < |procs| && procs[i].runnable
  }

  /** h is a runnable process of least priority value, the first such from c on. */
  ghost predicate IsPick(procs: seq<Proc>, c: nat, h: nat) {
    && Ready(procs, h)
    && (forall i :: Ready(procs, i) ==> procs[h].priority <= procs[i].priority)
    && (forall i :: Ready(procs, i) && procs[i].priority == procs[h].priority ==> Dist(|procs|, c, h) <= Dist(|procs|, c, i))
  }

  /** h is the pick among p and the first k entries after it, round the table. */
  ghost predicate Leads(procs: seq<Proc>, p: nat, k: nat, h: nat)
    requires p < |procs|
  {
    && Ready(procs, h) && Dist(|procs|, p, h) <= k
    && (forall i :: Ready(procs, i) && Dist(|procs|, p, i) <= k ==> procs[h].priority <= procs[i].priority)
    && (forall i :: Ready(procs, i) && Dist(|procs|, p, i) <= k && procs[i].priority == procs[h].priority ==>
          Dist(|procs|, p, h) <= Dist(|procs|, p, i))
  }

  lemma LeadsNext(procs: seq<Proc>, p: nat, k: nat, h: nat, e: nat)
    requires p < |procs| && e < |procs| && Dist(|procs|, p, e) == k + 1 && Leads(procs, p, k, h)
    ensures Leads(procs, p, k + 1, if Ready(procs, e) && procs[e].priority < procs[h].priority then e else h)
  {
    forall i | Ready(procs, i) && Dist(|procs|, p, i) <= k + 1
      ensures i == e || Dist(|procs|, p, i) <= k
    {
    }
  }

  /** The two inner loops: from the runnable entry p, the rest of the table and then
      its beginning, keeping the first of least priority value. */
  method Choose(procs: seq<Proc>, p: nat) returns (h: nat)
    requires Ready(procs, p)
    ensures IsPick(procs, p, h)
  {
    h := p;
    var e := p + 1;
    while e < |procs|
      invariant p + 1 <= e <= |procs| && Leads(procs, p, e - p - 1, h)
    {
      LeadsNext(procs, p, e - p - 1, h, e);
      if procs[e].runnable && procs[e].priority < procs[h].priority {
        h := e;
      }
      e := e + 1;
    }
    e := 0;
    while e < p
      invariant 0 <= e <= p && Leads(procs, p, e - p + |procs| - 1, h)
    {
      LeadsNext(procs, p, e - p + |procs| - 1, h, e);
      if procs[e].runnable && procs[e].priority < procs[h].priority {
        h := e;
      }
      e := e + 1;
    }
  }

  /** The rest of a pass from cursor c: the next process to run, if any entry from c
      on is runnable. */
  method Next(procs: seq<Proc>, c: nat) returns (found: bool, h: nat)
    requires c <= |procs|
    ensures found <==> exists i :: c <= i && Ready(procs, i)
    ensures found ==> IsPick(procs, c, h)
  {
    var p := c;
    while p < |procs|
      invariant c <= p <= |procs| && forall i :: c <= i < p ==> !Ready(procs, i)
    {
      if procs[p].runnable {
        h := Choose(procs, p);
        SkipIdle(procs, c, p, h);
        assert Ready(procs, p);
        return true, h;
      }
      p := p + 1;
    }
    found, h := false, 0;
  }

  /** Entries that are not runnable do not matter. */
  lemma SkipIdle(procs: seq<Proc>, c: nat, p: nat, h: nat)
    requires c <= p < |procs| && (forall i :: c <= i < p ==> !Ready(procs, i)) && IsPick(procs, p, h)
    ensures IsPick(procs, c, h)
  {
    forall i | Ready(procs, i) && procs[i].priority == procs[h].priority
      ensures Dist(|procs|, c, h) <= Dist(|procs|, c, i)
    {
      assert Dist(|procs|, p, h) <= Dist(|procs|, p, i);
    }
  }

  // ----- round robin --------------------------------------------------------

  /** What one CPU's scheduler does, with the table as it then is: run h, or begin a
      new pass because nothing from the cursor on is runnable. */
  datatype Event = Run(procs: seq<Proc>, h: nat) | Wrap(procs: seq<Proc>)

  ghost predicate Happens(n: nat, c: nat, e: Event, d: nat) {
    && |e.procs| == n && c <= n
    && match e
       case Run(procs, h) => IsPick(procs, c, h) && d == h + 1
       case Wrap(procs) => (forall i :: c <= i ==> !Ready(procs, i)) && d == 0
  }

  /** cs[k] is the cursor before event k. */
  ghost predicate Passes(n: nat, es: seq<Event>, cs: seq<nat>) {
    |cs| == |es| + 1 && forall k :: 0 <= k < |es| ==> Happens(n, cs[k], es[k], cs[k + 1])
  }

  /** q is runnable, and nothing runnable has a smaller priority value. */
  ghost predicate Waits(procs: seq<Proc>, q: nat) {
    Ready(procs, q) && forall i :: Ready(procs, i) ==> procs[q].priority <= procs[i].priority
  }

  predicate Runs(e: Event, q: nat) {
    e.Run? && e.h == q
  }

  /** While q waits and is not run, it stays nearer to the cursor than r. */
  lemma StaysAhead(n: nat, c: nat, e: Event, d: nat, q: nat, r: nat)
    requires Happens(n, c, e, d) && Waits(e.procs, q) && r < n && Dist(n, c, q) < Dist(n, c, r) && !Runs(e, q)
    ensures !Runs(e, r) && Dist(n, d, q) < Dist(n, d, r) && d <= n
  {
    if e.Run? {
      assert Dist(n, c, e.h) <= Dist(n, c, q);
    } else {
      assert q < c;
    }
  }

  /** Between two runs of r, every process that waits all the while is run: no process
      runs twice before another of the same priority that stays runnable. */
  lemma {:induction false} RoundRobin(n: nat, es: seq<Event>, cs: seq<nat>, a: nat, b: nat, q: nat, r: nat)
    requires Passes(n, es, cs) && a < b < |es| && Runs(es[a], r) && Runs(es[b], r) && q != r
    requires forall k :: a <= k <= b ==> Waits(es[k].procs, q)
    ensures exists k :: a < k < b && Runs(es[k], q)
  {
    if forall k :: a < k < b ==> !Runs(es[k], q) {
      assert Happens(n, cs[a], es[a], cs[a + 1]);
      AheadUntil(n, es, cs, a + 1, b, q, r);
      assert Happens(n, cs[b], es[b], cs[b + 1]);
      StaysAhead(n, cs[b], es[b], cs[b + 1], q, r);
    }
  }

  lemma {:induction false} AheadUntil(n: nat, es: seq<Event>, cs: seq<nat>, a: nat, b: nat, q: nat, r: nat)
    requires Passes(n, es, cs) && a <= b < |es| && r < n && Dist(n, cs[a], q) < Dist(n, cs[a], r)
    requires forall k :: a <= k < b ==> Waits(es[k].procs, q) && !Runs(es[k], q)
    ensures Dist(n, cs[b], q) < Dist(n, cs[b], r)
    decreases b - a
  {
    if a < b {
      assert Happens(n, cs[a], es[a], cs[a + 1]);
      StaysAhead(n, cs[a], es[a], cs[a + 1], q, r);
      AheadUntil(n, es, cs, a + 1, b, q, r);
    }
  }
}
