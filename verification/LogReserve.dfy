/** Space accounting in the log: begin_op's reservation against what log_write
    appends, over every run of begin_op, log_write, end_op and commit. */
module LogReserve {
  import opened LogSpec

  datatype Counts = Counts(
    lh: seq<nat>,
    outstanding: nat,
    committing: bool,
    used: map<nat, nat>)      // per open operation, the blocks it has added

  datatype Step =
    | Begin(p: nat)
    | Write(p: nat, b: nat)   // log_write of block b by p's operation
    | End(p: nat)
    | Committed               // commit() has emptied the log

  predicate Panics(size: int, s: Counts) {
    |s.lh| >= LOGSIZE || |s.lh| >= size - 1 || s.outstanding < 1
  }

  /** An operation keeps its promise: it adds at most MAXOPBLOCKS blocks. */
  predicate WithinReservation(s: Counts, p: nat, b: nat) {
    p in s.used && (b in s.lh || s.used[p] < MAXOPBLOCKS)
  }

  predicate Enabled(size: int, s: Counts, step: Step) {
    match step
    case Begin(p) =>
      p !in s.used && !s.committing && |s.lh| + (s.outstanding + 1) * MAXOPBLOCKS <= LOGSIZE
    case Write(p, b) => WithinReservation(s, p, b) && !Panics(size, s)
    case End(p) => p in s.used && s.outstanding >= 1 && !s.committing
    case Committed => s.committing
  }

  function Next(size: int, s: Counts, step: Step): Counts
    requires Enabled(size, s, step)
  {
    match step
    case Begin(p) => s.(outstanding := s.outstanding + 1, used := s.used[p := 0])
    case Write(p, b) =>
      if b in s.lh then s
      else s.(lh := s.lh + [b], used := s.used[p := s.used[p] + 1])
    case End(p) =>
      s.(outstanding := s.outstanding - 1, used := s.used - {p}, committing := s.outstanding == 1)
    case Committed => s.(lh := [], committing := false)
  }

  ghost predicate Run(size: int, s: Counts, steps: seq<Step>, e: Counts)
    decreases |steps|
  {
    if steps == [] then s == e
    else Enabled(size, s, steps[0]) && Run(size, Next(size, s, steps[0]), steps[1..], e)
  }

  const Start: Counts := Counts([], 0, false, map[])

  ghost predicate Reachable(size: int, e: Counts) {
    exists steps :: Run(size, Start, steps, e)
  }

  // ----- the accounting invariant -------------------------------------------

  /** Blocks the open operations may still add. */
  ghost function Unused(used: map<nat, nat>): int
    decreases |used|
  {
    if used == map[] then 0
    else
      var p :| p in used;
      MAXOPBLOCKS - used[p] + Unused(used - {p})
  }

  lemma {:induction false} UnusedRemove(used: map<nat, nat>, p: nat)
    requires p in used
    ensures Unused(used) == MAXOPBLOCKS - used[p] + Unused(used - {p})
    decreases |used|
  {
    var q :| q in used && Unused(used) == MAXOPBLOCKS - used[q] + Unused(used - {q});
    if q != p {
      UnusedRemove(used - {q}, p);
      UnusedRemove(used - {p}, q);
      assert used - {q} - {p} == used - {p} - {q};
    }
  }

  lemma UnusedUpdate(used: map<nat, nat>, p: nat, k: nat)
    ensures Unused(used[p := k]) == MAXOPBLOCKS - k + Unused(used - {p})
  {
    UnusedRemove(used[p := k], p);
    assert used[p := k] - {p} == used - {p};
  }

  lemma {:induction false} UnusedBounds(used: map<nat, nat>)
    requires forall p :: p in used ==> used[p] <= MAXOPBLOCKS
    ensures 0 <= Unused(used) <= |used| * MAXOPBLOCKS
    decreases |used|
  {
    if used != map[] {
      var p :| p in used;
      UnusedRemove(used, p);
      assert |used - {p}| == |used| - 1;
      UnusedBounds(used - {p});
    }
  }

  /** Logged blocks and outstanding reservations never exceed the log. */
  ghost predicate Inv(s: Counts) {
    && s.outstanding == |s.used|
    && (forall p :: p in s.used ==> s.used[p] <= MAXOPBLOCKS)
    && |s.lh| + Unused(s.used) <= LOGSIZE
    && (s.committing ==> s.used == map[])
  }

  lemma StepKeepsInv(size: int, s: Counts, step: Step)
    requires Inv(s) && Enabled(size, s, step)
    ensures Inv(Next(size, s, step))
  {
    match step
    case Begin(p) => BeginKeeps(s.used, p);
    case Write(p, b) => if b !in s.lh { WriteKeeps(s.used, p); }
    case End(p) => EndKeeps(s.used, p);
    case Committed =>
  }

  lemma BeginKeeps(used: map<nat, nat>, p: nat)
    requires p !in used && forall q :: q in used ==> used[q] <= MAXOPBLOCKS
    ensures |used[p := 0]| == |used| + 1 && Unused(used[p := 0]) == Unused(used) + MAXOPBLOCKS
    ensures Unused(used) <= |used| * MAXOPBLOCKS
  {
    UnusedUpdate(used, p, 0);
    assert used - {p} == used;
    assert used[p := 0].Keys == used.Keys + {p};
    UnusedBounds(used);
  }

  lemma WriteKeeps(used: map<nat, nat>, p: nat)
    requires p in used
    ensures |used[p := used[p] + 1]| == |used| && Unused(used[p := used[p] + 1]) == Unused(used) - 1
  {
    UnusedUpdate(used, p, used[p] + 1);
    UnusedRemove(used, p);
    assert used[p := used[p] + 1].Keys == used.Keys;
  }

  lemma EndKeeps(used: map<nat, nat>, p: nat)
    requires p in used && used[p] <= MAXOPBLOCKS
    ensures |used - {p}| == |used| - 1 && Unused(used - {p}) <= Unused(used)
    ensures |used| == 1 ==> used - {p} == map[]
  {
    UnusedRemove(used, p);
    assert (used - {p}).Keys == used.Keys - {p};
  }

  lemma {:induction false} RunKeepsInv(size: int, s: Counts, steps: seq<Step>, e: Counts)
    requires Inv(s) && Run(size, s, steps, e)
    ensures Inv(e)
    decreases |steps|
  {
    if steps != [] {
      StepKeepsInv(size, s, steps[0]);
      RunKeepsInv(size, Next(size, s, steps[0]), steps[1..], e);
    }
  }

  /** The reservation over whole runs: if each operation adds at most MAXOPBLOCKS
      blocks, the logged blocks together with every unused reservation fit in the
      log, whatever its size on disk; and a commit starts with none open. */
  lemma Reservation(size: int, e: Counts)
    requires Reachable(size, e)
    ensures |e.lh| + Unused(e.used) <= LOGSIZE
    ensures e.outstanding == |e.used|
    ensures e.committing ==> e.outstanding == 0
  {
    var steps :| Run(size, Start, steps, e);
    RunKeepsInv(size, Start, steps, e);
  }

  // ----- when log_write panics ----------------------------------------------

  /** No run makes log_write panic on an operation with reservation to spare. */
  ghost predicate PanicFree(size: int) {
    forall s: Counts, p: nat :: Reachable(size, s) && p in s.used && s.used[p] < MAXOPBLOCKS ==> !Panics(size, s)
  }

  lemma LargeLogIsPanicFree(size: int)
    requires size > LOGSIZE
    ensures PanicFree(size)
  {
    forall s: Counts, p: nat | Reachable(size, s) && p in s.used && s.used[p] < MAXOPBLOCKS
      ensures !Panics(size, s)
    {
      var steps :| Run(size, Start, steps, s);
      RunKeepsInv(size, Start, steps, s);
      UnusedRemove(s.used, p);
      UnusedBounds(s.used - {p});
    }
  }

  lemma {:induction false} RunConcat(size: int, s: Counts, u: seq<Step>, m: Counts, v: seq<Step>, e: Counts)
    requires Run(size, s, u, m) && Run(size, m, v, e)
    ensures Run(size, s, u + v, e)
    decreases |u|
  {
    if u == [] {
      assert u + v == v;
    } else {
      RunConcat(size, Next(size, s, u[0]), u[1..], m, v, e);
      assert (u + v)[1..] == u[1..] + v;
    }
  }

  lemma ReachStep(size: int, s: Counts, step: Step)
    requires Reachable(size, s) && Enabled(size, s, step)
    ensures Reachable(size, Next(size, s, step))
  {
    var steps :| Run(size, Start, steps, s);
    var e := Next(size, s, step);
    assert Run(size, e, [step][1..], e);
    assert Run(size, s, [step], e);
    RunConcat(size, Start, steps, s, [step], e);
  }

  /** Three operations that have logged the blocks 0..k between them, each in
      turn up to its reservation. */
  function Filled(k: nat): Counts
    requires k <= LOGSIZE
  {
    Counts(seq(k, i requires 0 <= i < k => i), 3, false,
           map[0 := Share(k, 0), 1 := Share(k, 1), 2 := Share(k, 2)])
  }

  function Share(k: nat, p: nat): nat {
    var from := p * MAXOPBLOCKS;
    if k <= from then 0 else if k - from < MAXOPBLOCKS then k - from else MAXOPBLOCKS
  }

  lemma {:induction false} FilledReachable(size: int, k: nat)
    requires k <= LOGSIZE && k <= size - 1
    ensures Reachable(size, Filled(k))
  {
    if k == 0 {
      assert Run(size, Start, [], Start);
      var s0 := Start;
      ReachStep(size, s0, Begin(0));
      var s1 := Next(size, s0, Begin(0));
      ReachStep(size, s1, Begin(1));
      var s2 := Next(size, s1, Begin(1));
      ReachStep(size, s2, Begin(2));
      assert Next(size, s2, Begin(2)) == Filled(0);
    } else {
      FilledReachable(size, k - 1);
      var s := Filled(k - 1);
      var p := (k - 1) / MAXOPBLOCKS;
      ReachStep(size, s, Step.Write(p, k - 1));
      var e := Next(size, s, Step.Write(p, k - 1));
      assert e.lh == Filled(k).lh;
      assert e.used == Filled(k).used;
    }
  }

  lemma SmallLogPanics(size: int)
    requires size <= LOGSIZE
    ensures !PanicFree(size)
  {
    if size < 1 {
      assert Run(size, Start, [], Start);
      ReachStep(size, Start, Begin(0));
      var s := Next(size, Start, Begin(0));
      assert Panics(size, s) && s.used[0] < MAXOPBLOCKS;
    } else {
      FilledReachable(size, size - 1);
      var s := Filled(size - 1);
      var p := (size - 1) / MAXOPBLOCKS;
      assert Panics(size, s) && p in s.used && s.used[p] < MAXOPBLOCKS;
    }
  }

  /** log_write is safe for operations within their reservation exactly when the
      on-disk log is larger than LOGSIZE; mkfs makes it LOGSIZE. */
  lemma PanicFreeIff(size: int)
    ensures PanicFree(size) <==> size > LOGSIZE
  {
    if size > LOGSIZE {
      LargeLogIsPanicFree(size);
    } else {
      SmallLogPanics(size);
    }
  }

  /** With a large enough log, log_write can still panic in one case, and only in
      that one: the log is full and every open operation has used its whole
      reservation.  The block may even be one already logged. */
  lemma FullLogPanics(size: int, s: Counts)
    requires size > LOGSIZE && Reachable(size, s) && s.outstanding >= 1
    ensures Panics(size, s) <==> |s.lh| == LOGSIZE
    ensures Panics(size, s) ==> forall p :: p in s.used ==> s.used[p] == MAXOPBLOCKS
  {
    var steps :| Run(size, Start, steps, s);
    RunKeepsInv(size, Start, steps, s);
    UnusedBounds(s.used);
    forall p | p in s.used && |s.lh| == LOGSIZE
      ensures s.used[p] == MAXOPBLOCKS
    {
      UnusedRemove(s.used, p);
      UnusedBounds(s.used - {p});
    }
  }

  lemma FullLogReachable(size: int)
    requires size > LOGSIZE
    ensures exists s: Counts, p: nat, b: nat :: Reachable(size, s) && WithinReservation(s, p, b) && b in s.lh && Panics(size, s)
  {
    FilledReachable(size, LOGSIZE);
    var s := Filled(LOGSIZE);
    assert s.lh[0] == 0;
    assert WithinReservation(s, 0, 0) && Panics(size, s);
  }
}
