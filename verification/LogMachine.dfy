/** The log, the buffer cache and the disk under every interleaving of processes,
    with crashes at any point.

    A step is one critical section of the code (a hold of bcache.lock or
    log.lock), one acquisition or release of a buffer's sleep lock, one disk
    transfer, or a crash.  File-system code keeps three rules that log.c states
    for its callers: a buffer is modified only inside an operation and only while
    locked, it is logged before it is unlocked, and an operation holds no buffer
    when it ends. */
module LogMachine {
  import opened LogSpec

  datatype Option<T> = None | Some(value: T)

  datatype Buf = Buf(
    used: bool,             // false while the buffer still says device 0
    blockno: nat,
    valid: bool,
    dirty: bool,
    refs: set<nat>,         // the processes counted in refcnt
    owner: Option<nat>,     // the holder of the sleep lock
    modified: bool,         // changed since it was last logged or read
    data: Block)

  /** Where the commit or the recovery is.  A phase names the next disk write. */
  datatype Phase =
    | Idle                            // no commit in progress
    | Copying(t: nat)                 // write_log, about to copy block t
    | Heading                         // about to write the non-empty header
    | Installing(t: nat)              // install_trans, about to install block t
    | Clearing                        // about to write the empty header
    | Closing                         // commit done, about to clear `committing`
    | Booting                         // crashed, header not read yet

  datatype State = State(
    disk: Image,
    bufs: seq<Buf>,
    lh: seq<nat>,
    ops: set<nat>,            // processes between begin_op and end_op
    committing: bool,
    worker: nat,              // the process running commit or recovery
    recovering: bool,
    phase: Phase,
    view: Image,              // latest logged contents of every block
    durable: Image,           // contents the disk recovers to
    quiet: seq<Image>)        // contents at each moment when no operation was open

  function FreshBuf(): Buf {
    Buf(false, 0, false, false, {}, None, false, seq(WORDS, _ => 0))
  }

  function FreshBufs(): seq<Buf> {
    seq(NBUF, _ => FreshBuf())
  }

  // ----- the invariant ------------------------------------------------------

  ghost predicate CacheOk(bufs: seq<Buf>, n: nat) {
    && |bufs| == NBUF
    && (forall i :: 0 <= i < NBUF ==> BufOk(bufs[i], n))
    && (forall i, j :: 0 <= i < NBUF && 0 <= j < NBUF && bufs[i].used && bufs[j].used && bufs[i].blockno == bufs[j].blockno ==> i == j)
  }

  ghost predicate BufOk(b: Buf, n: nat) {
    && (b.used ==> b.blockno < n)
    && (b.valid ==> b.used)
    && (b.dirty ==> b.valid)
    && (b.modified ==> b.valid && b.owner.Some?)
    && (b.owner.Some? ==> b.used && b.owner.value in b.refs)
  }

  /** A clean buffer holds its disk block, a logged one the latest logged
      contents; a locked buffer being modified may differ. */
  ghost predicate DataOk(bufs: seq<Buf>, disk: Image, view: Image) {
    |disk| == |view| &&
    forall i :: 0 <= i < |bufs| && bufs[i].valid && !bufs[i].modified && bufs[i].blockno < |disk| ==>
      bufs[i].data == if bufs[i].dirty then view[bufs[i].blockno] else disk[bufs[i].blockno]
  }

  ghost predicate Pinned(bufs: seq<Buf>, b: nat) {
    exists i :: 0 <= i < |bufs| && bufs[i].dirty && bufs[i].blockno == b
  }

  /** Block numbers of lh that the current phase has not installed yet. */
  function Pending(s: State): seq<nat> {
    match s.phase
    case Installing(t) => if t <= |s.lh| then s.lh[t..] else []
    case Clearing => []
    case _ => s.lh
  }

  /** The dirty buffers are exactly the pending blocks.  After a crash the
      pending blocks are in the log only. */
  ghost predicate PinsOk(s: State) {
    && (forall i :: 0 <= i < |s.bufs| && s.bufs[i].dirty ==> !s.recovering && s.bufs[i].blockno in Pending(s))
    && (!s.recovering ==> forall b :: b in Pending(s) ==> Pinned(s.bufs, b))
  }

  /** Home blocks with nothing pending are up to date on the disk. */
  ghost predicate HomeOk(l: Layout, s: State) {
    s.phase != Booting && |s.disk| == |s.view| ==>
      forall b :: 0 <= b < |s.disk| && l.IsHome(b) && b !in Pending(s) ==> s.disk[b] == s.view[b]
  }

  /** The disk holds `durable`: outside the blocks the header names it is in
      place, and for those it is in the log blocks. */
  ghost predicate DiskOk(l: Layout, disk: Image, durable: Image) {
    && |durable| == |disk|
    && l.Fits(disk) && HeadOk(l, disk)
    && var h := DecodeHead(l, disk);
       && NoRepeats(h) && |h| <= LOGSIZE
       && (forall t :: 0 <= t < |h| ==> disk[l.LogBlock(t)] == durable[h[t]])
       && (forall b :: 0 <= b < |disk| && l.IsHome(b) && b !in h ==> disk[b] == durable[b])
  }

  ghost predicate PhaseOk(l: Layout, s: State)
    requires l.Fits(s.disk)
  {
    && |s.view| == |s.disk|
    && Loggable(l, s.lh, |s.disk|) && NoRepeats(s.lh) && |s.lh| <= LOGSIZE
    && match s.phase
       case Idle =>
         && !s.committing && !s.recovering
         && HeadCount(s.disk[l.start]) == 0
       case Copying(t) =>
         && s.committing && !s.recovering && s.ops == {} && t < |s.lh|
         && HeadCount(s.disk[l.start]) == 0
         && (forall k :: 0 <= k < t ==> s.disk[l.LogBlock(k)] == s.view[s.lh[k]])
         && s.view in s.quiet
       case Heading =>
         && s.committing && !s.recovering && s.ops == {} && s.lh != []
         && HeadCount(s.disk[l.start]) == 0
         && (forall k :: 0 <= k < |s.lh| ==> s.disk[l.LogBlock(k)] == s.view[s.lh[k]])
         && s.view in s.quiet
       case Installing(t) =>
         && s.committing != s.recovering && s.ops == {} && t < |s.lh|
         && HeadOk(l, s.disk) && s.lh == DecodeHead(l, s.disk)
         && s.view == s.durable
       case Clearing =>
         && s.committing != s.recovering && s.ops == {}
         && s.view == s.durable
       case Closing =>
         && s.committing && !s.recovering && s.ops == {} && s.lh == []
         && HeadCount(s.disk[l.start]) == 0
       case Booting =>
         && !s.committing && s.recovering && s.ops == {} && s.lh == []
         && s.view == s.durable
  }

  ghost predicate OpsOk(s: State) {
    forall i :: 0 <= i < |s.bufs| && s.bufs[i].modified ==> s.bufs[i].owner.Some? && s.bufs[i].owner.value in s.ops
  }

  ghost predicate Inv(l: Layout, s: State) {
    && l.Fits(s.disk)
    && CacheOk(s.bufs, |s.disk|)
    && PhaseOk(l, s)
    && DataOk(s.bufs, s.disk, s.view)
    && PinsOk(s)
    && HomeOk(l, s)
    && OpsOk(s)
    && DiskOk(l, s.disk, s.durable)
    && s.durable in s.quiet
  }

  // ----- steps --------------------------------------------------------------

  datatype Step =
    | BGetHit(p: nat, i: nat)             // bget finds the block, refcnt++
    | BGetMiss(p: nat, i: nat, b: nat)    // bget recycles buffer i for block b
    | Lock(p: nat, i: nat)                // acquiresleep succeeds
    | Fill(p: nat, i: nat)                // bread: iderw of an invalid buffer
    | Modify(p: nat, i: nat, d: Block)
    | LogWrite(p: nat, i: nat)
    | Unlock(p: nat, i: nat)              // brelse, first half
    | Deref(p: nat, i: nat)               // brelse, second half
    | BeginOp(p: nat)
    | EndOp(p: nat)
    | CopyBlock(i: nat, j: nat)           // write_log: pinned block j to log block i
    | WriteHead(i: nat)
    | Install(i: nat, j: nat)             // install_trans: log block i to home block j
    | ClearHead(i: nat)
    | Close                               // end_op clears committing
    | Crash(p: nat)                       // all memory is lost; p will run recovery
    | ReadHead(i: nat)

  /** Process p holds the lock of buffer i, which has its block's contents. */
  ghost predicate Has(s: State, p: nat, i: nat, b: nat) {
    i < |s.bufs| && s.bufs[i].owner == Some(p) && s.bufs[i].valid && s.bufs[i].used && s.bufs[i].blockno == b
  }

  /** The step can be taken.  Where the code would index out of range or the
      driver would panic the step is not enabled; in reachable states those
      guards never decide anything.  Nor is log_write where it panics on a full
      log, which does happen. */
  ghost predicate Enabled(l: Layout, s: State, step: Step) {
    && l.Fits(s.disk) && |s.bufs| == NBUF && |s.view| == |s.disk|
    && match step
       case BGetHit(p, i) =>
         (s.recovering ==> p == s.worker) && i < NBUF && s.bufs[i].used && p !in s.bufs[i].refs
       case BGetMiss(p, i, b) =>
         && (s.recovering ==> p == s.worker)
         && i < NBUF && b < |s.disk| && s.bufs[i].refs == {} && !s.bufs[i].dirty
         && forall j :: 0 <= j < NBUF && s.bufs[j].used ==> s.bufs[j].blockno != b
       case Lock(p, i) => i < NBUF && s.bufs[i].used && p in s.bufs[i].refs && s.bufs[i].owner == None
       case Fill(p, i) =>
         i < NBUF && s.bufs[i].owner == Some(p) && !s.bufs[i].valid && s.bufs[i].blockno < |s.disk|
       case Modify(p, i, d) =>
         p in s.ops && i < NBUF && Has(s, p, i, s.bufs[i].blockno) && l.IsHome(s.bufs[i].blockno)
       case LogWrite(p, i) =>
         && p in s.ops && i < NBUF && Has(s, p, i, s.bufs[i].blockno)
         && l.IsHome(s.bufs[i].blockno) && s.bufs[i].blockno < |s.disk|
         && |s.lh| < LOGSIZE && |s.lh| < l.size - 1
       case Unlock(p, i) => i < NBUF && s.bufs[i].owner == Some(p) && !s.bufs[i].modified
       case Deref(p, i) => i < NBUF && p in s.bufs[i].refs && s.bufs[i].owner != Some(p)
       case BeginOp(p) =>
         && p !in s.ops && !s.committing && !s.recovering
         && |s.lh| + (|s.ops| + 1) * MAXOPBLOCKS <= LOGSIZE
       case EndOp(p) =>
         p in s.ops && forall i :: 0 <= i < NBUF && s.bufs[i].owner == Some(p) ==> !s.bufs[i].modified
       case CopyBlock(i, j) =>
         && s.phase.Copying? && s.phase.t < |s.lh| && l.LogBlock(s.phase.t) < |s.disk|
         && Has(s, s.worker, i, l.LogBlock(s.phase.t)) && Has(s, s.worker, j, s.lh[s.phase.t])
       case WriteHead(i) => s.phase == Heading && |s.lh| < WORDS && Has(s, s.worker, i, l.start)
       case Install(i, j) =>
         && s.phase.Installing? && s.phase.t < |s.lh| && s.lh[s.phase.t] < |s.disk|
         && Has(s, s.worker, i, l.LogBlock(s.phase.t)) && Has(s, s.worker, j, s.lh[s.phase.t])
       case ClearHead(i) => s.phase == Clearing && Has(s, s.worker, i, l.start)
       case Close => s.phase == Closing
       case Crash(p) => true
       case ReadHead(i) => s.phase == Booting && Has(s, s.worker, i, l.start) && HeadOk(l, s.disk)
  }

  /** memmove into buffer i and bwrite it. */
  function WriteOut(s: State, i: nat, d: Block): State
    requires i < |s.bufs| && s.bufs[i].blockno < |s.disk|
  {
    s.(bufs := s.bufs[i := s.bufs[i].(data := d, dirty := false, modified := false)],
       disk := s.disk[s.bufs[i].blockno := d])
  }

  ghost function Next(l: Layout, s: State, step: Step): State
    requires Enabled(l, s, step)
  {
    match step
    case BGetHit(p, i) => s.(bufs := s.bufs[i := s.bufs[i].(refs := s.bufs[i].refs + {p})])
    case BGetMiss(p, i, b) => s.(bufs := s.bufs[i := Buf(true, b, false, false, {p}, None, false, s.bufs[i].data)])
    case Lock(p, i) => s.(bufs := s.bufs[i := s.bufs[i].(owner := Some(p))])
    case Fill(p, i) => s.(bufs := s.bufs[i := s.bufs[i].(valid := true, data := s.disk[s.bufs[i].blockno])])
    case Modify(p, i, d) => s.(bufs := s.bufs[i := s.bufs[i].(data := d, modified := true)])
    case LogWrite(p, i) =>
      var b := s.bufs[i].blockno;
      s.(bufs := s.bufs[i := s.bufs[i].(dirty := true, modified := false)],
         lh := if b in s.lh then s.lh else s.lh + [b],
         view := s.view[b := s.bufs[i].data])
    case Unlock(p, i) => s.(bufs := s.bufs[i := s.bufs[i].(owner := None)])
    case Deref(p, i) => s.(bufs := s.bufs[i := s.bufs[i].(refs := s.bufs[i].refs - {p})])
    case BeginOp(p) => s.(ops := s.ops + {p})
    case EndOp(p) =>
      if s.ops != {p} then s.(ops := s.ops - {p})
      else s.(ops := {}, committing := true, worker := p, quiet := s.quiet + [s.view],
              phase := if s.lh == [] then Closing else Copying(0))
    case CopyBlock(i, j) =>
      var t := s.phase.t;
      WriteOut(s, i, s.bufs[j].data).(phase := if t + 1 < |s.lh| then Copying(t + 1) else Heading)
    case WriteHead(i) =>
      WriteOut(s, i, EncodeHead(s.bufs[i].data, s.lh)).(phase := Installing(0), durable := s.view)
    case Install(i, j) =>
      var t := s.phase.t;
      WriteOut(s, j, s.bufs[i].data).(phase := if t + 1 < |s.lh| then Installing(t + 1) else Clearing)
    case ClearHead(i) =>
      WriteOut(s, i, EncodeHead(s.bufs[i].data, [])).(
        lh := [], recovering := false, phase := if s.recovering then Idle else Closing)
    case Close => s.(committing := false, phase := Idle)
    case Crash(p) =>
      s.(bufs := FreshBufs(), lh := [], ops := {}, committing := false, worker := p, recovering := true,
         phase := Booting, view := s.durable)
    case ReadHead(i) =>
      var h := DecodeHead(l, s.disk);   // the buffer read holds the disk's header: see WorkerReads
      s.(lh := h, phase := if h == [] then Clearing else Installing(0))
  }

  // ----- preservation -------------------------------------------------------

  /** Replacing one buffer by another that is as dirty as it was and holds what
      a buffer of its block should. */
  lemma KeepsInv_Buf(l: Layout, s: State, i: nat, nb: Buf)
    requires Inv(l, s) && i < NBUF && BufOk(nb, |s.disk|)
    requires nb.dirty == s.bufs[i].dirty && (nb.dirty ==> nb.blockno == s.bufs[i].blockno)
    requires nb.modified ==> nb.owner.Some? && nb.owner.value in s.ops
    requires nb.used ==> forall j :: 0 <= j < NBUF && j != i && s.bufs[j].used ==> s.bufs[j].blockno != nb.blockno
    requires nb.valid && !nb.modified ==> nb.data == if nb.dirty then s.view[nb.blockno] else s.disk[nb.blockno]
    ensures Inv(l, s.(bufs := s.bufs[i := nb]))
  {
    var n := s.(bufs := s.bufs[i := nb]);
    assert CacheOk(n.bufs, |s.disk|);
    assert Pending(n) == Pending(s);
    PinnedUpdate(s.bufs, i, nb);
    assert PinsOk(n);
  }

  lemma KeepsInv_Refs(l: Layout, s: State, i: nat, nb: Buf)
    requires Inv(l, s) && i < NBUF
    requires nb == s.bufs[i].(refs := nb.refs, owner := nb.owner)
    requires nb.owner.Some? ==> nb.used && nb.owner.value in nb.refs
    requires nb.modified ==> nb.owner == s.bufs[i].owner
    ensures Inv(l, s.(bufs := s.bufs[i := nb]))
  {
    assert BufOk(s.bufs[i], |s.disk|);
    KeepsInv_Buf(l, s, i, nb);
  }

  lemma PinnedUpdate(bufs: seq<Buf>, i: nat, nb: Buf)
    requires i < |bufs| && nb.dirty == bufs[i].dirty && (nb.dirty ==> nb.blockno == bufs[i].blockno)
    ensures forall b :: Pinned(bufs, b) ==> Pinned(bufs[i := nb], b)
  {
    forall b | Pinned(bufs, b)
      ensures Pinned(bufs[i := nb], b)
    {
      var k :| 0 <= k < |bufs| && bufs[k].dirty && bufs[k].blockno == b;
      assert bufs[i := nb][k].dirty;
    }
  }

  lemma KeepsInv_Miss(l: Layout, s: State, p: nat, i: nat, b: nat)
    requires Inv(l, s) && i < NBUF && b < |s.disk| && s.bufs[i].refs == {} && !s.bufs[i].dirty
    requires forall j :: 0 <= j < NBUF && s.bufs[j].used ==> s.bufs[j].blockno != b
    ensures Inv(l, s.(bufs := s.bufs[i := Buf(true, b, false, false, {p}, None, false, s.bufs[i].data)]))
  {
    assert BufOk(s.bufs[i], |s.disk|);
    KeepsInv_Buf(l, s, i, Buf(true, b, false, false, {p}, None, false, s.bufs[i].data));
  }

  lemma KeepsInv_Fill(l: Layout, s: State, i: nat)
    requires Inv(l, s) && i < NBUF && s.bufs[i].owner.Some? && !s.bufs[i].valid
    ensures Inv(l, s.(bufs := s.bufs[i := s.bufs[i].(valid := true, data := s.disk[s.bufs[i].blockno])]))
  {
    assert BufOk(s.bufs[i], |s.disk|);
    KeepsInv_Buf(l, s, i, s.bufs[i].(valid := true, data := s.disk[s.bufs[i].blockno]));
  }

  lemma KeepsInv_Modify(l: Layout, s: State, p: nat, i: nat, d: Block)
    requires Inv(l, s) && i < NBUF && p in s.ops && s.bufs[i].owner == Some(p) && s.bufs[i].valid
    ensures Inv(l, s.(bufs := s.bufs[i := s.bufs[i].(data := d, modified := true)]))
  {
    assert BufOk(s.bufs[i], |s.disk|);
    KeepsInv_Buf(l, s, i, s.bufs[i].(data := d, modified := true));
  }

  lemma KeepsInv_LogWrite(l: Layout, s: State, p: nat, i: nat)
    requires Inv(l, s) && p in s.ops && i < NBUF && s.bufs[i].owner == Some(p) && s.bufs[i].valid
    requires l.IsHome(s.bufs[i].blockno) && |s.lh| < LOGSIZE && |s.lh| < l.size - 1
    ensures var b := s.bufs[i].blockno;
            Inv(l, s.(bufs := s.bufs[i := s.bufs[i].(dirty := true, modified := false)],
                      lh := if b in s.lh then s.lh else s.lh + [b],
                      view := s.view[b := s.bufs[i].data]))
  {
    var b := s.bufs[i].blockno;
    var n := s.(bufs := s.bufs[i := s.bufs[i].(dirty := true, modified := false)],
                lh := if b in s.lh then s.lh else s.lh + [b],
                view := s.view[b := s.bufs[i].data]);
    OpsIdle(l, s, p);
    assert BufOk(s.bufs[i], |s.disk|);
    LogWriteCache(s.bufs, s.disk, s.view, i, b);
    LogWriteList(l, s.lh, |s.disk|, b);
    LogWriteKept(l, s, n, i, b);
    LogWritePhase(l, s, n);
  }

  lemma LogWriteKept(l: Layout, s: State, n: State, i: nat, b: nat)
    requires Inv(l, s) && s.phase == Idle && !s.recovering && i < NBUF && s.bufs[i].blockno == b < |s.disk| && |s.view| == |s.disk|
    requires n == s.(bufs := s.bufs[i := s.bufs[i].(dirty := true, modified := false)],
                     lh := if b in s.lh then s.lh else s.lh + [b],
                     view := s.view[b := s.bufs[i].data])
    ensures PinsOk(n) && HomeOk(l, n) && OpsOk(n)
  {
    LogWritePins(s, n, i, b);
    LogWriteHome(l, s, n, b);
  }

  /** While an operation is open nothing is being committed. */
  lemma OpsIdle(l: Layout, s: State, p: nat)
    requires l.Fits(s.disk) && PhaseOk(l, s) && p in s.ops
    ensures s.phase == Idle && !s.committing && !s.recovering && HeadCount(s.disk[l.start]) == 0
  {
  }

  lemma LogWritePhase(l: Layout, s: State, n: State)
    requires l.Fits(s.disk) && s.phase == n.phase == Idle && n.disk == s.disk && |n.view| == |s.disk|
    requires !n.committing && !n.recovering && HeadCount(s.disk[l.start]) == 0
    requires Loggable(l, n.lh, |s.disk|) && NoRepeats(n.lh) && |n.lh| <= LOGSIZE
    ensures PhaseOk(l, n)
  {
  }

  lemma LogWriteCache(bufs: seq<Buf>, disk: Image, view: Image, i: nat, b: nat)
    requires CacheOk(bufs, |disk|) && DataOk(bufs, disk, view) && i < NBUF && bufs[i].valid && bufs[i].blockno == b < |disk|
    ensures var ns := bufs[i := bufs[i].(dirty := true, modified := false)];
            CacheOk(ns, |disk|) && DataOk(ns, disk, view[b := bufs[i].data])
  {
    assert BufOk(bufs[i], |disk|);
    var ns := bufs[i := bufs[i].(dirty := true, modified := false)];
    forall k | 0 <= k < NBUF
      ensures BufOk(ns[k], |disk|) && (k != i && bufs[k].used ==> bufs[k].blockno != b)
    {
      assert BufOk(bufs[k], |disk|);
    }
  }

  lemma LogWriteList(l: Layout, lh: seq<nat>, n: nat, b: nat)
    requires Loggable(l, lh, n) && NoRepeats(lh) && |lh| < LOGSIZE && |lh| < l.size - 1 && l.IsHome(b) && b < n
    ensures var m := if b in lh then lh else lh + [b]; Loggable(l, m, n) && NoRepeats(m) && |m| <= LOGSIZE
  {
  }

  lemma LogWriteHome(l: Layout, s: State, n: State, b: nat)
    requires HomeOk(l, s) && OpsOk(s) && s.phase == n.phase == Idle && n.disk == s.disk && |s.view| == |s.disk| && b < |s.disk|
    requires n.lh == (if b in s.lh then s.lh else s.lh + [b]) && n.ops == s.ops && |n.view| == |s.view|
    requires forall x :: 0 <= x < |s.view| && x != b ==> n.view[x] == s.view[x]
    requires |n.bufs| == |s.bufs| && forall k :: 0 <= k < |s.bufs| && n.bufs[k].modified ==> s.bufs[k].modified && n.bufs[k].owner == s.bufs[k].owner
    ensures HomeOk(l, n) && OpsOk(n)
  {
    assert forall x :: x in n.lh <==> x in s.lh || x == b;
  }

  lemma LogWritePins(s: State, n: State, i: nat, b: nat)
    requires PinsOk(s) && s.phase == n.phase == Idle && s.recovering == n.recovering == false
    requires i < |s.bufs| && s.bufs[i].blockno == b
    requires n.bufs == s.bufs[i := s.bufs[i].(dirty := true, modified := false)]
    requires n.lh == if b in s.lh then s.lh else s.lh + [b]
    ensures PinsOk(n)
  {
    forall x | x in n.lh
      ensures Pinned(n.bufs, x)
    {
      if x == b {
        assert n.bufs[i].dirty;
      } else {
        assert x in Pending(s);
        var k :| 0 <= k < |s.bufs| && s.bufs[k].dirty && s.bufs[k].blockno == x;
        assert n.bufs[k].dirty;
      }
    }
  }

  lemma KeepsInv_BeginOp(l: Layout, s: State, p: nat)
    requires Inv(l, s) && !s.committing && !s.recovering
    ensures Inv(l, s.(ops := s.ops + {p}))
  {
  }

  lemma KeepsInv_EndOp(l: Layout, s: State, p: nat)
    requires Inv(l, s) && p in s.ops
    requires forall i :: 0 <= i < NBUF && s.bufs[i].owner == Some(p) ==> !s.bufs[i].modified
    ensures Inv(l, s.(ops := s.ops - {p}))
    ensures s.ops == {p} ==>
              Inv(l, s.(ops := {}, committing := true, worker := p, quiet := s.quiet + [s.view],
                        phase := if s.lh == [] then Closing else Copying(0)))
  {
  }

  // The four kinds of disk write, on the disk alone.

  lemma DiskOk_Copy(l: Layout, disk: Image, durable: Image, b: nat, d: Block)
    requires DiskOk(l, disk, durable) && HeadCount(disk[l.start]) == 0
    requires b < |disk| && !l.IsHome(b) && b != l.start
    ensures DiskOk(l, disk[b := d], durable)
  {
    assert DecodeHead(l, disk) == [];
    assert DecodeHead(l, disk[b := d]) == [];
  }

  lemma DiskOk_Head(l: Layout, disk: Image, lh: seq<nat>, view: Image)
    requires l.Fits(disk) && |view| == |disk|
    requires Loggable(l, lh, |disk|) && NoRepeats(lh) && |lh| <= LOGSIZE
    requires forall k :: 0 <= k < |lh| ==> disk[l.LogBlock(k)] == view[lh[k]]
    requires forall b :: 0 <= b < |disk| && l.IsHome(b) && b !in lh ==> disk[b] == view[b]
    ensures var e := disk[l.start := EncodeHead(disk[l.start], lh)];
            DiskOk(l, e, view) && DecodeHead(l, e) == lh
  {
    var e := disk[l.start := EncodeHead(disk[l.start], lh)];
    DecodeEncoded(l, lh, e, disk[l.start]);
    forall k | 0 <= k < |lh|
      ensures e[l.LogBlock(k)] == view[lh[k]]
    {
    }
    HeadedDisk(l, e, lh, view);
  }

  lemma HeadedDisk(l: Layout, e: Image, lh: seq<nat>, view: Image)
    requires l.Fits(e) && |view| == |e| && HeadOk(l, e) && DecodeHead(l, e) == lh
    requires NoRepeats(lh) && |lh| <= LOGSIZE
    requires forall i :: 0 <= i < |lh| ==> lh[i] < |view|
    requires forall k :: 0 <= k < |lh| ==> e[l.LogBlock(k)] == view[lh[k]]
    requires forall b :: 0 <= b < |e| && l.IsHome(b) && b !in lh ==> e[b] == view[b]
    ensures DiskOk(l, e, view)
  {
  }

  lemma DiskOk_Install(l: Layout, disk: Image, durable: Image, t: nat)
    requires DiskOk(l, disk, durable) && t < |DecodeHead(l, disk)|
    ensures var e := disk[DecodeHead(l, disk)[t] := disk[l.LogBlock(t)]];
            DiskOk(l, e, durable) && DecodeHead(l, e) == DecodeHead(l, disk)
  {
    var h := DecodeHead(l, disk);
    var e := disk[h[t] := disk[l.LogBlock(t)]];
    assert e[l.start] == disk[l.start];
    assert DecodeHead(l, e) == h;
    forall k | 0 <= k < |h|
      ensures e[l.LogBlock(k)] == disk[l.LogBlock(k)]
    {
    }
  }

  lemma DiskOk_Clear(l: Layout, disk: Image, durable: Image)
    requires DiskOk(l, disk, durable)
    requires forall b :: 0 <= b < |disk| && l.IsHome(b) ==> disk[b] == durable[b]
    ensures DiskOk(l, disk[l.start := EncodeHead(disk[l.start], [])], durable)
  {
    DecodeEncoded(l, [], disk[l.start := EncodeHead(disk[l.start], [])], disk[l.start]);
  }

  /** memmove and bwrite keep the cache consistent with the disk. */
  lemma WriteOutCache(s: State, i: nat, d: Block)
    requires CacheOk(s.bufs, |s.disk|) && DataOk(s.bufs, s.disk, s.view)
    requires i < NBUF && s.bufs[i].valid && s.bufs[i].owner.Some?
    ensures CacheOk(WriteOut(s, i, d).bufs, |s.disk|)
    ensures DataOk(WriteOut(s, i, d).bufs, WriteOut(s, i, d).disk, s.view)
  {
    var n := WriteOut(s, i, d);
    forall k | 0 <= k < NBUF && k != i && s.bufs[k].valid
      ensures s.bufs[k].blockno != s.bufs[i].blockno
    {
    }
  }

  /** The buffers a commit or a recovery works with hold what it expects. */
  lemma WorkerReads(l: Layout, s: State, i: nat)
    requires Inv(l, s) && i < NBUF && s.bufs[i].valid && s.ops == {}
    ensures s.bufs[i].data == if s.bufs[i].dirty then s.view[s.bufs[i].blockno] else s.disk[s.bufs[i].blockno]
    ensures !l.IsHome(s.bufs[i].blockno) ==> !s.bufs[i].dirty
  {
  }

  lemma PinnedBuffer(s: State, n: nat, i: nat, b: nat)
    requires CacheOk(s.bufs, n) && i < NBUF && s.bufs[i].used && s.bufs[i].blockno == b && Pinned(s.bufs, b)
    ensures s.bufs[i].dirty
  {
  }

  lemma KeepsInv_Copy(l: Layout, s: State, i: nat, j: nat)
    requires Inv(l, s) && s.phase.Copying?
    requires Has(s, s.worker, i, l.LogBlock(s.phase.t)) && Has(s, s.worker, j, s.lh[s.phase.t])
    ensures var t := s.phase.t;
            Inv(l, WriteOut(s, i, s.bufs[j].data).(phase := if t + 1 < |s.lh| then Copying(t + 1) else Heading))
  {
    var t := s.phase.t;
    WorkerReads(l, s, i);
    WorkerReads(l, s, j);
    assert s.lh[t] in Pending(s);
    PinnedBuffer(s, |s.disk|, j, s.lh[t]);
    WriteOutCache(s, i, s.bufs[j].data);
    DiskOk_Copy(l, s.disk, s.durable, l.LogBlock(t), s.bufs[j].data);
    var n := WriteOut(s, i, s.bufs[j].data);
    PinnedUpdate(s.bufs, i, n.bufs[i]);
  }

  /** A write outside the home blocks leaves pins, home blocks and operations alone. */
  lemma LogAreaFrame(l: Layout, s: State, n: State, i: nat)
    requires PinsOk(s) && HomeOk(l, s) && OpsOk(s)
    requires |n.bufs| == |s.bufs| && i < |s.bufs| && n.bufs == s.bufs[i := n.bufs[i]]
    requires !s.bufs[i].dirty && !n.bufs[i].dirty && !n.bufs[i].modified
    requires |n.disk| == |s.disk| && forall b :: 0 <= b < |s.disk| && l.IsHome(b) ==> n.disk[b] == s.disk[b]
    requires n.view == s.view && n.ops == s.ops && n.recovering == s.recovering && Pending(n) == Pending(s)
    requires s.phase != Booting
    ensures PinsOk(n) && HomeOk(l, n) && OpsOk(n)
  {
    PinnedUpdate(s.bufs, i, n.bufs[i]);
  }

  lemma KeepsInv_Head(l: Layout, s: State, i: nat)
    requires Inv(l, s) && s.phase == Heading && Has(s, s.worker, i, l.start)
    ensures Inv(l, WriteOut(s, i, EncodeHead(s.bufs[i].data, s.lh)).(phase := Installing(0), durable := s.view))
  {
    WorkerReads(l, s, i);
    var d := EncodeHead(s.bufs[i].data, s.lh);
    WriteOutCache(s, i, d);
    DiskOk_Head(l, s.disk, s.lh, s.view);
    var n := WriteOut(s, i, d).(phase := Installing(0), durable := s.view);
    assert Pending(n) == s.lh;
    LogAreaFrame(l, s, n, i);
  }

  /** Installing block t takes it off the pending list and cleans its buffer. */
  lemma InstallFrame(l: Layout, s: State, n: State, j: nat, b: nat)
    requires CacheOk(s.bufs, |s.disk|) && PinsOk(s) && HomeOk(l, s) && OpsOk(s) && |s.view| == |s.disk|
    requires |n.bufs| == |s.bufs| && j < |s.bufs| && s.bufs[j].used && s.bufs[j].blockno == b < |s.disk|
    requires n.bufs == s.bufs[j := n.bufs[j]] && !n.bufs[j].dirty && !n.bufs[j].modified
    requires n.disk == s.disk[b := s.view[b]]
    requires n.view == s.view && n.ops == s.ops && n.recovering == s.recovering
    requires Pending(s) == [b] + Pending(n) && b !in Pending(n)
    requires s.phase != Booting
    ensures PinsOk(n) && HomeOk(l, n) && OpsOk(n)
  {
    forall x | x in Pending(n) && !s.recovering
      ensures Pinned(n.bufs, x)
    {
      assert x in Pending(s);
      var k :| 0 <= k < NBUF && s.bufs[k].dirty && s.bufs[k].blockno == x;
      assert n.bufs[k].dirty;
    }
    forall k | 0 <= k < NBUF && n.bufs[k].dirty
      ensures !n.recovering && n.bufs[k].blockno in Pending(n)
    {
      assert k != j && s.bufs[k].dirty;
    }
  }

  lemma TailStep(lh: seq<nat>, t: nat)
    requires NoRepeats(lh) && t < |lh|
    ensures lh[t..] == [lh[t]] + lh[t + 1..] && lh[t] !in lh[t + 1..]
  {
  }

  lemma KeepsInv_Install(l: Layout, s: State, i: nat, j: nat)
    requires Inv(l, s) && s.phase.Installing?
    requires Has(s, s.worker, i, l.LogBlock(s.phase.t)) && Has(s, s.worker, j, s.lh[s.phase.t])
    ensures var t := s.phase.t;
            Inv(l, WriteOut(s, j, s.bufs[i].data).(phase := if t + 1 < |s.lh| then Installing(t + 1) else Clearing))
  {
    var t := s.phase.t;
    var n := WriteOut(s, j, s.bufs[i].data).(phase := if t + 1 < |s.lh| then Installing(t + 1) else Clearing);
    InstallReads(l, s, i);
    WriteOutCache(s, j, s.bufs[i].data);
    TailStep(s.lh, t);
    InstallPending(s, n, t);
    InstallFrame(l, s, n, j, s.lh[t]);
    DiskOk_Install(l, s.disk, s.durable, t);
    InstallPhase(l, s, n, t);
  }

  lemma InstallPending(s: State, n: State, t: nat)
    requires s.phase == Installing(t) && t < |s.lh| && n.lh == s.lh
    requires n.phase == if t + 1 < |s.lh| then Installing(t + 1) else Clearing
    ensures Pending(s) == s.lh[t..] && Pending(n) == s.lh[t + 1..]
  {
    assert s.lh[|s.lh|..] == [];
  }

  /** Installing a home block leaves the header as it was. */
  lemma InstallPhase(l: Layout, s: State, n: State, t: nat)
    requires l.Fits(s.disk) && PhaseOk(l, s) && s.phase == Installing(t) && |n.disk| == |s.disk| && n.disk[l.start] == s.disk[l.start]
    requires n.phase == (if t + 1 < |s.lh| then Installing(t + 1) else Clearing) && n.lh == s.lh && n.view == s.view && n.durable == s.durable
    requires n.committing == s.committing && n.recovering == s.recovering && n.ops == s.ops
    ensures l.Fits(n.disk) && PhaseOk(l, n)
  {
  }

  /** The log block being installed holds the latest contents of its home block. */
  lemma InstallReads(l: Layout, s: State, i: nat)
    requires Inv(l, s) && s.phase.Installing? && Has(s, s.worker, i, l.LogBlock(s.phase.t))
    ensures s.bufs[i].data == s.disk[l.LogBlock(s.phase.t)] == s.view[s.lh[s.phase.t]]
  {
    WorkerReads(l, s, i);
  }

  lemma KeepsInv_Clear(l: Layout, s: State, i: nat)
    requires Inv(l, s) && s.phase == Clearing && Has(s, s.worker, i, l.start)
    ensures Inv(l, WriteOut(s, i, EncodeHead(s.bufs[i].data, [])).(
                  lh := [], recovering := false, phase := if s.recovering then Idle else Closing))
  {
    WorkerReads(l, s, i);
    WriteOutCache(s, i, EncodeHead(s.bufs[i].data, []));
    DiskOk_Clear(l, s.disk, s.durable);
  }

  lemma HeadLoggable(l: Layout, disk: Image)
    requires l.Fits(disk) && HeadOk(l, disk)
    ensures Loggable(l, DecodeHead(l, disk), |disk|)
  {
  }

  lemma BootHome(l: Layout, s: State, h: seq<nat>)
    requires DiskOk(l, s.disk, s.durable) && h == DecodeHead(l, s.disk) && s.view == s.durable
    ensures HomeOk(l, s.(lh := h, phase := if h == [] then Clearing else Installing(0)))
  {
    assert h[0..] == h;
  }

  lemma KeepsInv_ReadHead(l: Layout, s: State, h: seq<nat>)
    requires Inv(l, s) && s.phase == Booting && h == DecodeHead(l, s.disk)
    ensures Inv(l, s.(lh := h, phase := if h == [] then Clearing else Installing(0)))
  {
    HeadLoggable(l, s.disk);
    BootHome(l, s, h);
  }

  lemma KeepsInv_Crash(l: Layout, s: State, p: nat)
    requires Inv(l, s)
    ensures Inv(l, Next(l, s, Crash(p)))
  {
  }

  lemma KeepsInv_Close(l: Layout, s: State)
    requires Inv(l, s) && s.phase == Closing
    ensures Inv(l, s.(committing := false, phase := Idle))
  {
  }

  lemma CacheStepKeepsInv(l: Layout, s: State, step: Step)
    requires Inv(l, s) && Enabled(l, s, step)
    requires step.BGetHit? || step.BGetMiss? || step.Lock? || step.Fill? || step.Modify? || step.LogWrite? || step.Unlock? || step.Deref?
    ensures Inv(l, Next(l, s, step))
  {
    match step
    case BGetHit(p, i) => KeepsInv_Refs(l, s, i, s.bufs[i].(refs := s.bufs[i].refs + {p}));
    case BGetMiss(p, i, b) => KeepsInv_Miss(l, s, p, i, b);
    case Lock(p, i) => KeepsInv_Refs(l, s, i, s.bufs[i].(owner := Some(p)));
    case Fill(p, i) => KeepsInv_Fill(l, s, i);
    case Modify(p, i, d) => KeepsInv_Modify(l, s, p, i, d);
    case LogWrite(p, i) => KeepsInv_LogWrite(l, s, p, i);
    case Unlock(p, i) => KeepsInv_Refs(l, s, i, s.bufs[i].(owner := None));
    case Deref(p, i) => KeepsInv_Refs(l, s, i, s.bufs[i].(refs := s.bufs[i].refs - {p}));
  }

  lemma LogStepKeepsInv(l: Layout, s: State, step: Step)
    requires Inv(l, s) && Enabled(l, s, step)
    requires step.BeginOp? || step.EndOp? || step.Close? || step.Crash? || step.ReadHead?
    ensures Inv(l, Next(l, s, step))
  {
    match step
    case BeginOp(p) => KeepsInv_BeginOp(l, s, p);
    case EndOp(p) => KeepsInv_EndOp(l, s, p);
    case Close => KeepsInv_Close(l, s);
    case Crash(p) => KeepsInv_Crash(l, s, p);
    case ReadHead(i) => KeepsInv_ReadHead(l, s, DecodeHead(l, s.disk));
  }

  lemma DiskStepKeepsInv(l: Layout, s: State, step: Step)
    requires Inv(l, s) && Enabled(l, s, step)
    requires step.CopyBlock? || step.WriteHead? || step.Install? || step.ClearHead?
    ensures Inv(l, Next(l, s, step))
  {
    match step
    case CopyBlock(i, j) => KeepsInv_Copy(l, s, i, j);
    case WriteHead(i) => KeepsInv_Head(l, s, i);
    case Install(i, j) => KeepsInv_Install(l, s, i, j);
    case ClearHead(i) => KeepsInv_Clear(l, s, i);
  }

  lemma StepKeepsInv(l: Layout, s: State, step: Step)
    requires Inv(l, s) && Enabled(l, s, step)
    ensures Inv(l, Next(l, s, step))
  {
    if step.CopyBlock? || step.WriteHead? || step.Install? || step.ClearHead? {
      DiskStepKeepsInv(l, s, step);
    } else if step.BeginOp? || step.EndOp? || step.Close? || step.Crash? || step.ReadHead? {
      LogStepKeepsInv(l, s, step);
    } else {
      CacheStepKeepsInv(l, s, step);
    }
  }

  // ----- runs ---------------------------------------------------------------

  /** A machine booting from an image whose log is empty. */
  ghost predicate Init(l: Layout, s: State) {
    && l.Fits(s.disk) && HeadOk(l, s.disk) && HeadCount(s.disk[l.start]) == 0
    && s == State(s.disk, FreshBufs(), [], {}, false, s.worker, true, Booting, s.disk, s.disk, [s.disk])
  }

  /** The steps lead from s to e. */
  ghost predicate Run(l: Layout, s: State, steps: seq<Step>, e: State)
    decreases |steps|
  {
    if steps == [] then s == e
    else Enabled(l, s, steps[0]) && Run(l, Next(l, s, steps[0]), steps[1..], e)
  }

  lemma InitInv(l: Layout, s: State)
    requires Init(l, s)
    ensures Inv(l, s)
  {
    assert DecodeHead(l, s.disk) == [];
  }

  lemma {:induction false} RunKeepsInv(l: Layout, s: State, steps: seq<Step>, e: State)
    requires Inv(l, s) && Run(l, s, steps, e)
    ensures Inv(l, e)
    decreases |steps|
  {
    if steps != [] {
      StepKeepsInv(l, s, steps[0]);
      RunKeepsInv(l, Next(l, s, steps[0]), steps[1..], e);
    }
  }

  /** A disk that holds `durable` recovers to it. */
  lemma DiskRecovers(l: Layout, disk: Image, durable: Image)
    requires DiskOk(l, disk, durable)
    ensures SameHome(l, Recovered(l, disk), durable)
  {
    var h := DecodeHead(l, disk);
    HeadLoggable(l, disk);
    FinishInstalls(l, h, durable, disk, disk);
  }

  /** Crash safety over whole runs.  Stop any run, of any interleaving with any
      earlier crashes and half-done recoveries: the disk recovers to the
      contents the file system had at a moment when no operation was open. */
  lemma CrashSafety(l: Layout, s: State, steps: seq<Step>, e: State)
    requires Init(l, s) && Run(l, s, steps, e)
    ensures l.Fits(e.disk) && HeadOk(l, e.disk)
    ensures SameHome(l, Recovered(l, e.disk), e.durable)
    ensures e.durable in e.quiet
  {
    InitInv(l, s);
    RunKeepsInv(l, s, steps, e);
    DiskRecovers(l, e.disk, e.durable);
  }

  /** Durability over whole runs.  Once the header is written, and whenever no block is
      pending, the disk recovers to the latest logged contents. */
  lemma Durability(l: Layout, s: State, steps: seq<Step>, e: State)
    requires Init(l, s) && Run(l, s, steps, e)
    requires e.lh == [] || e.phase.Installing? || e.phase.Clearing?
    ensures l.Fits(e.disk) && HeadOk(l, e.disk)
    ensures SameHome(l, Recovered(l, e.disk), e.view)
  {
    InitInv(l, s);
    RunKeepsInv(l, s, steps, e);
    DiskRecovers(l, e.disk, e.durable);
    if e.phase == Idle || e.phase == Closing {
      InPlace(l, e.disk, e.durable, e.view);
    }
  }

  /** With an empty header and nothing pending, what the disk holds is all there is. */
  lemma InPlace(l: Layout, disk: Image, durable: Image, view: Image)
    requires DiskOk(l, disk, durable) && HeadCount(disk[l.start]) == 0 && |view| == |disk|
    requires forall b :: 0 <= b < |disk| && l.IsHome(b) ==> disk[b] == view[b]
    ensures SameHome(l, durable, view)
  {
    assert DecodeHead(l, disk) == [];
  }

  /** What a crash would leave changes at the header write only, and then to the
      current contents with no operation open. */
  lemma CommitIsolation(l: Layout, s: State, steps: seq<Step>, e: State, step: Step)
    requires Init(l, s) && Run(l, s, steps, e) && Enabled(l, e, step)
    ensures Next(l, e, step).durable != e.durable ==>
              step.WriteHead? && e.ops == {} && e.committing && Next(l, e, step).durable == e.view
    ensures e.committing ==> e.ops == {}
    ensures e.committing && !step.Crash? && !step.ClearHead? ==> Next(l, e, step).lh == e.lh
    ensures e.committing && !step.Crash? ==> Next(l, e, step).view == e.view
  {
    InitInv(l, s);
    RunKeepsInv(l, s, steps, e);
  }

  /** Cache coherence over whole runs.  A process that has locked and filled a
      home block and not changed it sees the latest logged contents; a pending
      block is never evicted; no block is cached twice. */
  lemma CacheCoherence(l: Layout, s: State, steps: seq<Step>, e: State)
    requires Init(l, s) && Run(l, s, steps, e)
    ensures |e.bufs| == NBUF
    ensures forall i :: 0 <= i < NBUF && e.bufs[i].valid && !e.bufs[i].modified && !e.recovering
                        && l.IsHome(e.bufs[i].blockno) ==>
              e.bufs[i].blockno < |e.view| && e.bufs[i].data == e.view[e.bufs[i].blockno]
    ensures forall i :: 0 <= i < NBUF && e.bufs[i].dirty ==> e.bufs[i].blockno in e.lh
    ensures !e.recovering ==> forall b :: b in Pending(e) ==> Pinned(e.bufs, b)
    ensures forall i, j :: 0 <= i < j < NBUF && e.bufs[i].used && e.bufs[j].used ==> e.bufs[i].blockno != e.bufs[j].blockno
  {
    InitInv(l, s);
    RunKeepsInv(l, s, steps, e);
    forall i | 0 <= i < NBUF && e.bufs[i].valid && !e.bufs[i].modified && !e.recovering && l.IsHome(e.bufs[i].blockno)
      ensures e.bufs[i].blockno < |e.view| && e.bufs[i].data == e.view[e.bufs[i].blockno]
    {
      var b := e.bufs[i].blockno;
      if b in Pending(e) {
        assert Pinned(e.bufs, b);
        PinnedBuffer(e, |e.disk|, i, b);
      }
    }
  }

  // ----- what is written is what is logged ----------------------------------

  /** The latest contents of a block change with log_write of that block, to what its
      buffer holds, and with a crash, to what the disk recovers to; by nothing else. */
  lemma ContentsLogged(l: Layout, s: State, step: Step, b: nat)
    requires Inv(l, s) && Enabled(l, s, step) && b < |s.view|
    ensures |Next(l, s, step).view| == |s.view| == |s.durable|
    ensures Next(l, s, step).view[b] ==
              if step.LogWrite? && s.bufs[step.i].blockno == b then s.bufs[step.i].data
              else if step.Crash? then s.durable[b]
              else s.view[b]
  {
  }

  /** What a process has put in a buffer stays there until it puts something else or
      logs it. */
  lemma ModifiedStays(l: Layout, s: State, step: Step, i: nat)
    requires Inv(l, s) && Enabled(l, s, step) && i < NBUF && s.bufs[i].modified
    requires !step.Crash? && !(step.LogWrite? && step.i == i)
    ensures var n := Next(l, s, step).bufs;
            && |n| == NBUF && n[i].modified && n[i].blockno == s.bufs[i].blockno && n[i].owner == s.bufs[i].owner
            && n[i].data == if step.Modify? && step.i == i then step.d else s.bufs[i].data
  {
    assert BufOk(s.bufs[i], |s.disk|);
    assert s.bufs[i].owner.value in s.ops;
  }

  /** A log_write pins the buffer it logs and lists its block. */
  lemma LoggedPinned(l: Layout, s: State, p: nat, i: nat)
    requires Inv(l, s) && Enabled(l, s, LogWrite(p, i))
    ensures var b, n := s.bufs[i].blockno, Next(l, s, LogWrite(p, i));
            && b in n.lh && n.bufs[i].dirty && n.bufs[i].data == s.bufs[i].data && (forall x :: x in n.lh <==> x in s.lh || x == b)
            && n.bufs[i].blockno == b && !n.bufs[i].modified
  {
    var b := s.bufs[i].blockno;
    assert b in s.lh || (s.lh + [b])[|s.lh|] == b;
  }

  // ----- a commit comes to its end ------------------------------------------

  /** The disk writes the commit or the recovery still has to do. */
  function Remaining(s: State): int {
    match s.phase
    case Copying(t) => |s.lh| - t + 1 + |s.lh| + 1
    case Heading => 1 + |s.lh| + 1
    case Installing(t) => |s.lh| - t + 1
    case Clearing => 1
    case _ => 0
  }

  predicate DiskWrite(step: Step) {
    step.CopyBlock? || step.WriteHead? || step.Install? || step.ClearHead?
  }

  /** Each write is one of them, in their order, and no other process changes what is
      left to do. */
  lemma CommitAdvances(l: Layout, s: State, step: Step)
    requires Inv(l, s) && Enabled(l, s, step) && Remaining(s) > 0 && !step.Crash?
    ensures Remaining(Next(l, s, step)) == Remaining(s) - if DiskWrite(step) then 1 else 0
    ensures Remaining(Next(l, s, step)) == 0 ==> Next(l, s, step).lh == [] && Next(l, s, step).phase in {Idle, Closing}
  {
  }

  /** The last operation to end starts a commit of everything pending: a write for each
      block to the log and home, and two for the header. */
  lemma CommitStarts(l: Layout, s: State, p: nat)
    requires Inv(l, s) && Enabled(l, s, EndOp(p)) && s.ops == {p} && s.lh != []
    ensures var n := Next(l, s, EndOp(p)); Remaining(n) == 2 * |s.lh| + 2 && n.lh == s.lh && n.worker == p && n.view == s.view
  {
    OpsIdle(l, s, p);
  }

  /** And once it is over, or the recovery, operations begin again. */
  lemma Reopens(l: Layout, s: State, p: nat)
    requires Inv(l, s) && (s.phase == Closing || (s.phase == Idle && s.ops == {} && s.lh == []))
    ensures s.phase == Closing ==> Enabled(l, s, Close)
    ensures var n := if s.phase == Closing then Next(l, s, Close) else s; Enabled(l, n, BeginOp(p)) && p in Next(l, n, BeginOp(p)).ops
  {
    assert (0 + 1) * MAXOPBLOCKS <= LOGSIZE;
  }
}
